# Vergunning-Controle-Service: footprint, georeferencing and helper model

This project models the computational core of the Rotterdam permit-check service
(Vergunning-Controle-Service) and proves properties of it in Dafny 4.11.

It covers two groups of code.

**The Python footprint and georeferencing scripts.** These take the triangulated
mesh of every IFC element and work out the building's 2D footprint:

- they keep the faces that point up;
- they project those faces to the plane and union them;
- they keep the outer boundary of the result;
- they georeference it with the parameters of the model's IfcMapConversion entity
  (IFC4, ISO 16739-1:2018), as a rotation, an optional scale, a translation and
  rounding to millimetres.

The companion scripts convert, translate and rotate 3D point lists.

**The TypeScript helpers around the checks.** These are:

- WKT, GML and GeoJSON coordinate handling (OGC 06-103r4, RFC 7946);
- blank-node renaming of JSON-LD quads;
- graph IRI and file naming, and dataset naming;
- selection of the governing zoning plan (bestemmingsplan);
- the validation report's message and pass flag;
- the DTAP (development, testing, acceptance, production) account and dataset tables;
- the operating-system table;
- the regular expression that pulls the IfcMapConversion fields out of an IFC text.

**How the model is built.** Reals stand for Python and JavaScript numbers.

- `sin`, `cos`, `arctan` and `sqrt` are the fields of an `Analysis` record. The
  predicate `Lawful` states the laws they obey: the Pythagorean identity, the
  quarter-turn shift, the range of the arctangent, and the square root as the
  non-negative root.
- Shapely's union and convex hull are the fields of a `Shapely` record.
- Every exception, `exit` and JavaScript `throw` is an `Err` of the `Result` type,
  with the Python exception class or the thrown message.
- Where a script does something its authors evidently did not intend, the model
  keeps the behaviour as written in a member named `...AsWritten`. The corrected
  member sits next to it. Each program-level composition that contains such a step
  also comes in both readings: `SrcFootprint.FootprintScriptAsWritten` and
  `EstablishContext.EstablishAsWritten` are the program as it runs, with
  `FootprintScript` and `Establish` beside them. `Valideer.Valideer` takes the
  `rpt:passed` literal as a parameter: the program is the instance
  `PassedAsWritten`, the corrected reading `Passed`. See "Findings" below.

The files follow the source layout:

| Dafny file | What it models |
|---|---|
| `analysis.dfy` | The analysis laws and rounding. |
| `geometry.dfy` | Points, shapely geometries and the IFC record. |
| `plane.dfy` | Rigid plane motions. |
| `silhouette.dfy` | `get_footprint`, common to the three footprint scripts. |
| `tools_footprint.dfy` | tools/footprint.py |
| `src_footprint.dfy` | src/tools/footprint.py |
| `py_footprint.dfy` | python/footprint.py |
| `georef2.dfy` | python/georeferencing/2_Georef.py |
| `georeference_py.dfy` | python/georeference.py |
| `georef_translate.dfy` | python/Georef.py |
| `rotate_script.dfy` | python/georeferencing/3_Rotate.py |
| `map_conversion_text.dfy` | python/point/point.py |
| `strings.dfy` | The JavaScript string operations the helpers rely on. |
| `node_path.dfy` | Node's `path.join`. |
| `project_geojson.dfy` | projectGeoJSON.ts |
| `linked_data.dfy` | responseToLinkedData.ts: GML, geo data and the vocabulary. |
| `blank_nodes.dfy` | responseToLinkedData.ts: blank nodes. |
| `vcs_helpers.dfy` | helperFunctions.ts |
| `wkt_coordinates.dfy` | wktPolygonToCoordinates.ts |
| `geojson_guards.dfy` | isGeoJSON.ts |
| `write_graph.dfy` | writeGraph.ts |
| `establish_context.dfy` | establishContext.ts |
| `ruimtelijke_plannen.dfy` | ruimtelijke-plannen.ts |
| `valideer.dfy` | valideer.ts |
| `dtap.dfy` | dtap.ts and getAccount.ts |
| `operating_system.dfy` | getOperatingSystem.ts |

## Model

| member | source | states |
|---|---|---|
| Analysis.Round | tools/footprint.py:100 | `round(v, d)` lands within half a unit of the d-th decimal of `v`, a tie landing exactly half a unit away. |
| Analysis.RoundHalfToEven | tools/footprint.py:100 | A value exactly halfway between k and k + 1 units of 10^-d rounds to whichever of the two is even, as Python's `round` does. |
| Analysis.RoundToMillimetre | tools/footprint.py:100 | Rounding to 3 decimals moves a coordinate by at most 0.0005. |
| Analysis.RoundTo | tools/footprint.py:210 | `round(v, d)` equals `k / 10^d` whenever `v` lies in the half-unit window around it, the window's two ends counting only for an even k. This is what fixes the documented elongation values. |
| Geometry.ExteriorOf | tools/footprint.py:121-122 | `.exterior` succeeds exactly on a Polygon and yields its shell as a LinearRing. Any other geometry is an AttributeError. |
| Geometry.Members | tools/footprint.py:123-125 | `.geoms` exists exactly for the multi-part kinds. A MultiPolygon gives its component polygons in order. Anything else is an AttributeError. |
| Geometry.Exteriors | tools/footprint.py:125-126 | The list of exteriors succeeds iff every part is a Polygon. It then has one shell ring per part, in order. |
| Geometry.MakePolygon | tools/footprint.py:102 | `shapely.Polygon(coords)` closes an open ring by repeating its first vertex and keeps the given vertices as a prefix of the shell. It rejects a closed ring of fewer than 4 or an open ring of fewer than 3 vertices. |
| Geometry.GroupPoints | tools/footprint.py:280 | Vertex triples: defined iff the flat buffer length is a multiple of 3, and then point k is buffer entries 3k..3k+2. |
| Geometry.GroupFaces | tools/footprint.py:281 | Face triples, with the same length condition and the same element layout. |
| Geometry.GroupFlattenRoundTrip | tools/footprint.py:280 | Grouping a flattened point list gives the list back. |
| Ifc.Divide | tools/footprint.py:66 | Python division of two optional attributes: defined iff both are present and the divisor is non-zero, and then the quotient times the divisor is the dividend. |
| Plane.RoundPoint | tools/footprint.py:100 | Both rounded coordinates are within 0.0005 of the exact ones. |
| Plane.MapRing | tools/footprint.py:94-100 | One output vertex per input vertex, in order, each the image of its input. |
| Plane.TurnAndShiftIsRotateThenOffset | tools/footprint.py:98-99 | The per-vertex formula `(x c + y s + dx, -x s + y c + dy)` is a rotation by the opposite angle followed by a translation. |
| Plane.RotateKeepsDistance | tools/footprint.py:98-99 | With `c^2 + s^2 = 1`, the turn keeps every squared distance. |
| Plane.OffsetKeepsDistance | tools/footprint.py:98-99 | The translation by the map origin keeps every squared distance. |
| Plane.RotateInverse | python/georeferencing/3_Rotate.py:30-33 | Rotating by an angle and then by its opposite gives the point back. |
| Plane.ScaleDistance | src/tools/footprint.py:149-154 | Scaling by `k` multiplies squared distances by `k^2`. |
| Silhouette.ComputedFrame | tools/footprint.py:277-314 | The direction divided by its norm, normalised again, then `b = normalise(d x (1,0,0))` and `c = d x b`: the resulting frame is exactly up, the y axis and the negative x axis. |
| Silhouette.UnitDirection | tools/footprint.py:290 | Normalising `(0, 0, 1)` gives `(0, 0, 1)`. |
| Silhouette.Basis | tools/footprint.py:306-314 | The basis the code builds from the up direction is `b = (0,1,0)` and `c = (-1,0,0)`. |
| Silhouette.ProjectIsQuarterTurn | tools/footprint.py:300-317 | Flattening along up and taking coordinates in the basis sends `(x, y, z)` to `(y, -x)`, whatever z is. |
| Silhouette.ThresholdIff | tools/footprint.py:294-296 | `z / len > 0.01` with a positive length is the same as `z > 0` and `10000 z^2 > len^2`. |
| Silhouette.FacesUpIff | tools/footprint.py:284-296 | A face passes the filter iff its unnormalised normal `n` has `n.z > 0` and `10000 n.z^2 > ‖n‖^2`. A degenerate face, whose normal is zero and normalises to NaN, never passes. |
| Silhouette.KeptFaces | tools/footprint.py:294-297 | Every kept face is a face of the mesh, and there are at most as many kept faces as faces. |
| Silhouette.KeptFacesSingle | tools/footprint.py:294-297 | A single face is kept iff its normal passes the filter. |
| Silhouette.KeptFacesAppend | tools/footprint.py:294-297 | Filtering keeps order and multiplicity: the kept faces of `a + b` are those of `a` followed by those of `b`. With KeptFacesSingle this makes the result the sub-list of upward faces. |
| Silhouette.KeptFacesExact | tools/footprint.py:294-297 | A face is kept iff it is a face of the mesh and its normal passes the filter. |
| Silhouette.KeptFacesFaceUp | tools/footprint.py:296-297 | Every kept face has valid indices and faces up. |
| Silhouette.ProjectedTriangleCorners | tools/footprint.py:317-319 | The corners of a projected face are `(y, -x)` of its three vertices. |
| Silhouette.KeptTriangleIsProper | tools/footprint.py:319 | A kept face projects to a triangle whose first and last corners differ, so `shapely.Polygon` accepts it. |
| Silhouette.Triangles | tools/footprint.py:319 | One polygon per kept face, in order. Each shell starts with that face's three projected corners. |
| Silhouette.TrianglesOfKeptFaces | tools/footprint.py:319 | Building the triangles never fails when every face faces up. |
| Silhouette.MeshArrays | tools/footprint.py:279-285 | When the buffers turn into numpy arrays without an IndexError, there is at least one face and every face indexes existing vertices. |
| Silhouette.GetFootprint | tools/footprint.py:275-322 | A footprint is produced only from buffers that form valid arrays. Its value is stated by GetFootprintIsUnionOfTriangles. |
| Silhouette.GetFootprintFailsOnlyOnMalformedMesh | tools/footprint.py:275-322 | Under the analysis laws `get_footprint` succeeds iff the mesh buffers are well formed. |
| Silhouette.GetFootprintIsUnionOfTriangles | tools/footprint.py:296-322 | On well-formed buffers `get_footprint` succeeds iff every kept face makes a triangle. Its value is then the union of those triangles, one per kept face in mesh order. |
| ToolsFootprint.NewMapConversion | tools/footprint.py:58-66 | No IfcMapConversion is an IndexError. Otherwise construction succeeds iff the ordinate over the abscissa is defined. The deltas and elevation are the entity's Eastings, Northings and OrthometricHeight. The scale is the entity's Scale when truthy, else 1. The rotation is minus the arctangent of the ordinate over the abscissa. |
| ToolsFootprint.MapConversionRanges | tools/footprint.py:66 | The rotation `-arctan(ordinate/abscissa)` lies strictly between -π/2 and π/2, and the scale is never 0. |
| ToolsFootprint.ExactIsTurnThenShift | tools/footprint.py:90-99 | Before rounding, a georeferenced vertex is the vertex turned clockwise by `rotation - π/2`, then shifted to the map origin. |
| ToolsFootprint.ExactGeoreferenceIsRigid | tools/footprint.py:90-99 | Before rounding, georeferencing keeps every pairwise distance, so the scale is never applied. |
| ToolsFootprint.OffsetCancelsProjection | tools/footprint.py:87-90 | Applied to the `(y, -x)` output of `get_footprint`, the `- π/2` offset exactly undoes the projection's quarter turn. A model vertex `(x, y)` lands on `(x cos θ + y sin θ + Δx, -x sin θ + y cos θ + Δy)`. |
| ToolsFootprint.GeoreferenceLstr | tools/footprint.py:80-102 | The shell starts with one georeferenced, millimetre-rounded vertex per input vertex, in order. |
| ToolsFootprint.GeoreferenceClosedRing | tools/footprint.py:80-102 | A closed ring of at least 4 vertices always gives a polygon without holes whose shell is exactly the georeferenced ring. |
| ToolsFootprint.GeoreferenceLines | tools/footprint.py:73-76 | One polygon per line string, in order, each the georeferenced line string. A failure comes from some line string. |
| ToolsFootprint.Georeference | tools/footprint.py:68-78 | A LinearRing gives a Polygon, and a MultiLineString a MultiPolygon with one polygon per line string. Any other type raises "unexpected geometry type". |
| ToolsFootprint.Exterior | tools/footprint.py:110-129 | No geometries raise "no geometries were provided", and only then. A single Polygon gives its shell without union, dropping its holes. |
| ToolsFootprint.ExteriorOfSeveral | tools/footprint.py:117-127 | Two or more geometries give the exterior of their union, taken as a single geometry. |
| ToolsFootprint.ExteriorOfMultiPolygon | tools/footprint.py:123-127 | A MultiPolygon gives the union of one exterior ring per component, in order. Holes never reach the result. |
| ToolsFootprint.Created | tools/footprint.py:144-152 | The elements whose shape creation succeeded: exactly those, at most as many as the elements. |
| ToolsFootprint.CreatedSingle | tools/footprint.py:144-152 | A created element is kept once, and a failed one is dropped. |
| ToolsFootprint.CreatedAppend | tools/footprint.py:144-152 | Skipping distributes over concatenation, so the kept elements stay in order and keep their multiplicity. |
| ToolsFootprint.Collect | tools/footprint.py:144-152 | The loop yields one footprint per created element, whichever function stands for `get_footprint`. |
| ToolsFootprint.CollectInOrder | tools/footprint.py:144-152 | The i-th footprint is that of the i-th created element. |
| ToolsFootprint.CollectOkIff | tools/footprint.py:144-152 | Collection succeeds iff every created element's footprint succeeds. |
| ToolsFootprint.Footprints | tools/footprint.py:144-152 | The loop with the model's `get_footprint` gives one footprint per created element. |
| ToolsFootprint.CollectFirstError | tools/footprint.py:144-152 | A failed collection carries the error of the first created element whose footprint fails, as the uncaught exception ends the loop. |
| ToolsFootprint.FootprintsOfWellFormedMeshes | tools/footprint.py:144-152 | When every created mesh is well formed, collecting footprints never fails. |
| ToolsFootprint.FootprintBuilding | tools/footprint.py:142-154 | Once the footprints are collected, the building fails with "no geometries were provided" iff no element could be created. |
| ToolsFootprint.FootprintBuildingAllFailed | tools/footprint.py:142-154 | When every element's shape creation fails, the result is the "no geometries" error. |
| ToolsFootprint.FootprintBuildingOfClosedRing | tools/footprint.py:142-154 | When the outer boundary of the collected footprints is a closed ring of at least four vertices, the result is the hole-free polygon of its georeferenced vertices. |
| ToolsFootprint.FootprintBuildingOfOneElement | tools/footprint.py:142-154 | With one created element whose footprint is a polygon, the result is that polygon's shell, georeferenced, without holes. |
| ToolsFootprint.Elongation | tools/footprint.py:210 | The elongation is defined iff the area is non-negative and the perimeter non-zero. A negative area is a math domain error and a zero perimeter a division by zero. It is at most 1 whenever the root of the area is at most a quarter of a positive perimeter. |
| ToolsFootprint.ElongationOfSquare | tools/footprint.py:210 | A square has elongation exactly 1. |
| ToolsFootprint.ElongationOfRectangle | tools/footprint.py:210 | An `a` by 1 rectangle has elongation at most 1. |
| ToolsFootprint.RoundedRatioAtMostOne | tools/footprint.py:210 | A root at most a quarter of a positive perimeter gives `round(root / (perimeter / 4), 4) <= 1`. |
| ToolsFootprint.DocumentedElongations | src/rapportage/RapportageTemplate.tsx:53-95 | Rectangles of 2:1, 3:1, 5:1 and 10:1 give 0.9428, 0.8660, 0.7454 and 0.5750, the values the report template documents. |
| SrcFootprint.ReadParams | src/tools/footprint.py:39-46 | No IfcMapConversion is an IndexError. Otherwise the parameters are read iff the ordinate over the abscissa is defined. Only an unset scale becomes 1; a scale of 0 is kept. |
| SrcFootprint.ReadParamsAgreesWithTool | src/tools/footprint.py:43-46 | The script and the footprint tool read the same deltas, elevation and rotation and fail on the same inputs. Their scales differ exactly when the entity's scale is 0. |
| SrcFootprint.OriginOfUnscaledConversion | src/tools/footprint.py:47 | Without a scale, the reported CRS origin is the entity's own Eastings, Northings and OrthometricHeight. |
| SrcFootprint.ExactIsScaleTurnShift | src/tools/footprint.py:147-153 | Before rounding, a vertex is scaled about the model origin, turned clockwise by `rotation - π/2` and shifted to the map origin. |
| SrcFootprint.ExactGeoreferenceScalesDistance | src/tools/footprint.py:147-153 | Before rounding, every squared distance is multiplied by the square of the scale. |
| SrcFootprint.ZeroScaleCollapses | src/tools/footprint.py:152-154 | With scale 0 every vertex collapses onto `(round(Δx,3), round(Δy,3))`. |
| SrcFootprint.UnitScaleAgreesWithTool | src/tools/footprint.py:147-154 | With scale 1 the script's georeference equals the footprint tool's. |
| SrcFootprint.OffsetCancelsProjection | src/tools/footprint.py:144-153 | The `- π/2` offset undoes the quarter turn of `get_footprint`. A model vertex lands on its own `(x, y)`, scaled, turned clockwise by the rotation and shifted by the deltas. |
| SrcFootprint.Georeference | src/tools/footprint.py:137-156 | The polygon's shell starts with one rounded georeferenced vertex per input vertex, in order. |
| SrcFootprint.GeoreferenceClosedRing | src/tools/footprint.py:137-156 | A closed ring of at least 4 vertices always gives a polygon. |
| SrcFootprint.GeoreferenceLines | src/tools/footprint.py:76-79 | All line strings georeference iff each does. Then there is one polygon per line string, in order. |
| SrcFootprint.MeshesUsed | src/tools/footprint.py:50-58 | The loop hands one mesh per element to `get_footprint`. Its only failure is a NameError for the unbound `shape`. |
| SrcFootprint.MeshesUsedAreLastCreated | src/tools/footprint.py:53-58 | The loop fails iff the very first element's shape creation fails. Otherwise every element, failed or not, uses the most recently created shape. |
| SrcFootprint.FailedElementRepeatsPrevious | src/tools/footprint.py:53-58 | A failed element after the first repeats the previous element's mesh, so its footprint is counted twice. |
| SrcFootprint.FootprintsOf | src/tools/footprint.py:57-58 | All footprints exist iff `get_footprint` succeeds on every mesh. Then there is one per mesh, in order. |
| SrcFootprint.OuterShapeAsWritten | src/tools/footprint.py:60-69 | A Polygon union gives its exterior. Otherwise the exterior rings come from the last element's footprint, not from the union. With no elements at all this is a NameError. |
| SrcFootprint.OuterShape | src/tools/footprint.py:60-69 | The corrected reading: a Polygon union gives its exterior, and a MultiPolygon union gives the union of one exterior ring per component of the union. |
| SrcFootprint.SeparateBuildingsDefeatAsWritten | src/tools/footprint.py:62-69 | For two separate single-polygon footprints, the script as written fails with an AttributeError. The corrected outer shape is the union of the two exterior rings. |
| SrcFootprint.Dispatch | src/tools/footprint.py:72-83 | A LinearRing gives a georeferenced Polygon reported as 'Polygon'. A MultiLineString gives a MultiPolygon with one polygon per line string, reported as 'MultiPolygon'. Any other shape exits with status 3. The reported type always matches the geometry. |
| SrcFootprint.FootprintScriptAsWritten | src/tools/footprint.py:33-83 | The script as it runs, rings taken from the last footprint. No map conversion is an IndexError. A failing first element is a NameError. A success reports the type of the geometry it returns. |
| SrcFootprint.FootprintScript | src/tools/footprint.py:33-83 | The corrected script, with the outer shape taken from the union. It has the same IndexError, NameError and type-name guarantees. |
| SrcFootprint.FootprintScriptsAgreeOnPolygonUnion | src/tools/footprint.py:60-83 | When the union of the footprints is a single Polygon, the script as written and the corrected one give the same result. |
| PyFootprint.OuterFootprint | python/footprint.py:93-148 | This `get_footprint` fails exactly when the shared projection and union fail. A Polygon union gives its exterior ring. Any other union gives its convex hull. |
| PyFootprint.OuterFootprintOfWellFormedMesh | python/footprint.py:142-145 | Under the analysis laws it fails only on malformed buffers. A single-Polygon union comes back as its exterior ring, holes dropped. Otherwise the result is the convex hull of the union of the kept faces' triangles. |
| PyFootprint.TakeCreated | python/footprint.py:38-51 | Within one IFC class only the objects before the first failed shape creation are processed: each kept shape is the object's own, and the next object, if any, is the failure. |
| PyFootprint.TakeCreatedIsPrefixOfSkipping | python/footprint.py:42-46 | Breaking out of a class keeps a prefix of what skipping single failures (the footprint tool's loop) keeps, and all of it when nothing fails. |
| PyFootprint.MeshesProcessedAppend | python/footprint.py:36-51 | Processing resumes with the next class: one more class appends exactly that class's own processed shapes. |
| PyFootprint.FootprintsOf | python/footprint.py:50-51 | All footprints exist iff each object's footprint does. Then there is one per processed shape, in order. |
| PyFootprint.Rotation | python/footprint.py:67-75 | The angle is `-arctan(ordinate/abscissa) - π/2`, exactly the footprint tool's calibrated angle, and it fails on the same inputs. |
| PyFootprint.Georeference | python/footprint.py:64-84 | A non-Polygon argument is an AttributeError once the map conversion has been read. A Polygon with an empty exterior is the IndexError of printing `verts[0]`. Only a Polygon with a non-empty exterior can succeed. |
| PyFootprint.GeoreferenceAgreesWithTool | python/footprint.py:64-84 | On a Polygon with a non-empty exterior this georeference equals the footprint tool's `georeference_lstr` of that ring. Neither applies the scale. On an empty exterior this script fails with an IndexError, where the tool gives an empty Polygon. |
| PyFootprint.ScriptAsWrittenAlwaysFails | python/footprint.py:54-56 | `main` reads `.exterior` of the union and `georeference` reads `.exterior` again, so the pipeline as written fails on every input. |
| PyFootprint.Script | python/footprint.py:54-56 | The corrected pipeline hands the union itself to `georeference`. It succeeds only when all footprints exist and the union is a single Polygon. |
| PyFootprint.ScriptGeoreferencesUnion | python/footprint.py:54-84 | When the union is one Polygon and the map conversion is readable, the corrected pipeline georeferences the union's exterior ring exactly as the footprint tool does. When that ring is empty, it fails with the IndexError of line 79. |
| Georef2.MmToM | python/georeferencing/2_Georef.py:8-9 | The metre value times 1000 is the millimetre value, and a positive length shrinks but stays positive. |
| Georef2.RowsToMetres | python/georeferencing/2_Georef.py:84-89 | One row out per row in, with x, y and z each converted from millimetres to metres. |
| Georef2.ReadReference | python/georeferencing/2_Georef.py:12-32 | No IfcMapConversion is a ValueError. Otherwise reading succeeds iff the abscissa-with-fallback over the ordinate-with-fallback is defined. The deltas and height are the entity's Eastings, Northings and OrthometricHeight. |
| Georef2.RotationIsReciprocalOfTool | python/georeferencing/2_Georef.py:20-22 | With both axis components non-zero, this script takes `-arctan(abscissa/ordinate)` where the footprint tool takes `-arctan(ordinate/abscissa)`. The two slopes are reciprocals. |
| Georef2.MissingOrdinateGivesDiagonal | python/georeferencing/2_Georef.py:20-22 | An ordinate of 0 or None falls back to attribute 5, the abscissa itself, so the rotation is `-arctan(1)` whatever the abscissa. |
| Georef2.NoAxisFails | python/georeferencing/2_Georef.py:20-22 | With neither axis component set to a non-zero number, the rotation fails with a TypeError or a ZeroDivisionError. |
| Georef2.PlaceAll | python/georeferencing/2_Georef.py:45-49 | One output point per input point, in order, each turned and offset alike. |
| Georef2.GeoreferenceCoordinates | python/georeferencing/2_Georef.py:35-51 | An empty list raises ValueError and only then. The output keeps the input's length. The first point's z becomes `height`, and all z differences are kept. |
| Georef2.FirstPointOnOrigin | python/georeferencing/2_Georef.py:40-49 | The first point lands exactly on `(delta_x, delta_y, height)` iff the counter-clockwise rotation fixes its `(x, y)`, as it does for rotation 0. |
| Georef2.GeoreferenceKeepsDistances | python/georeferencing/2_Georef.py:45-49 | Under the analysis laws the planar step is rigid: the horizontal distance between any two points is kept. |
| Georef2.Script | python/georeferencing/2_Georef.py:70-92 | The script succeeds iff the reference is readable and there is at least one row. The output keeps the row count, and the first point sits at the entity's OrthometricHeight. |
| GeoreferencePy.Extract3dConcat | python/georeference.py:35-46 | Extraction works point by point: on a concatenation it concatenates, so the kept points keep their input order. |
| GeoreferencePy.Extract3dSingle | python/georeference.py:42-44 | A single point is kept, as that 3D point, exactly when it has three coordinates. |
| GeoreferencePy.Extract3dSound | python/georeference.py:42-44 | Every extracted point is one of the input points with three coordinates. |
| GeoreferencePy.ReadReference | python/georeference.py:67-85 | No IfcMapConversion is a ValueError. Otherwise reading succeeds iff ordinate over abscissa is defined. The deltas and height are the entity's Eastings, Northings and OrthometricHeight. |
| GeoreferencePy.RotationIsOppositeOfTool | python/georeference.py:75 | The rotation is `+arctan(ordinate/abscissa)`, the negation of the footprint tool's, and it fails on the same inputs. |
| GeoreferencePy.SavedParameters | python/georeference.py:26 | The saved origin is within half a metre of the true origin, the saved rotation within 0.005 of the true rotation, and the height is saved unchanged. |
| GeoreferencePy.Script | python/georeference.py:8-32 | The script succeeds iff the reference is readable and some point has three coordinates. It saves the rounded parameters and returns one point per extracted point, the first at the entity's OrthometricHeight. |
| GeoreferencePy.SavedOriginIsNotUsed | python/georeference.py:23-29 | Georeferencing uses the unrounded parameters. With rotation 0 the first point lands on the true Eastings and Northings, which can be up to half a metre from the saved origin. |
| GeorefTranslate.ShiftAll | python/Georef.py:14-16 | One output point per input point, in order, each moved by the same offset. |
| GeorefTranslate.GeoreferenceCoordinates | python/Georef.py:7-18 | There is no guard, so an empty list fails with an IndexError when the first point is indexed. Otherwise the output has the input's length, the first point lands exactly on `reference`, and every pairwise difference vector is kept. |
| GeorefTranslate.TranslationIsUnturnedGeoreference | python/Georef.py:7-18 | On a non-empty list this translation is the second pipeline step's rotating georeference at a zero rotation. |
| GeorefTranslate.Script | python/Georef.py:29-43 | The rows are converted from millimetres to metres with the same `mm_to_m` (lines 4-5) as the pipeline and then translated. The first point lands on the reference, and each point keeps its metre offset from the first. |
| RotateScript.TranslationsAreInverse | python/georeferencing/3_Rotate.py:6-46 | `translate` and `inverse_translate` by the same vector undo each other, in both orders. |
| RotateScript.RotateDiagonal | python/georeferencing/3_Rotate.py:30-33 | The matrix product keeps z and turns `(x, y)` counter-clockwise by the angle. |
| RotateScript.RotateDiagonalFixesOriginKeepsNorm | python/georeferencing/3_Rotate.py:30-33 | Under the analysis laws the turn fixes the origin and keeps the planar norm. |
| RotateScript.TurnAllAbout | python/georeferencing/3_Rotate.py:95-101 | The three comprehensions give one point per input point, in order, each translated, turned and translated back. |
| RotateScript.TurnAboutFixesCorner | python/georeferencing/3_Rotate.py:88-101 | The fixed corner stays where it is, as the script's comment says. Each point keeps its height and its planar distance to the corner. |
| RotateScript.TurnAllAboutKeepsCorner | python/georeferencing/3_Rotate.py:95-101 | Over the whole list, every occurrence of the corner stays put, and every point keeps its z and its planar distance to the corner. |
| MapConversionText.Token | python/point/point.py:8 | A token read by the scanner is a run of accepted characters, and the text is that run, the separator and the rest. |
| MapConversionText.References | python/point/point.py:8 | `#\d+,\#\d+,`: two non-empty digit runs, and the text is exactly them with their separators. |
| MapConversionText.Fields | python/point/point.py:8 | The three lazy groups: each holds no comma and no line break, and each is closed by a comma. |
| MapConversionText.ScanAt | python/point/point.py:8 | Whatever the scanner reads at the start of a text is a well-formed match of the pattern. |
| MapConversionText.ScanAtComplete | python/point/point.py:8 | Every match of the pattern at the start of a text is the one the scanner reads. A text starts with at most one match. |
| MapConversionText.Search | python/point/point.py:9 | `re.search` returns the leftmost position where the pattern matches, and none when it matches nowhere. |
| MapConversionText.Extract | python/point/point.py:6-13 | None comes back iff the pattern occurs nowhere. The returned fields contain no comma and no line break. |
| MapConversionText.ExtractIsLeftmost | python/point/point.py:9-11 | When the first occurrence of the pattern is at `p`, the result is exactly that occurrence's first two free fields, the Eastings and Northings. |
| MapConversionText.ExtractNoneIff | python/point/point.py:10-13 | None is returned iff no position of the text starts a match. |
| MapConversionText.ExtractExample | python/point/point.py:8-11 | On `#7=IFCMAPCONVERSION(#1,#6,841.8,4318.3,0.,$);` the result is `("841.8", "4318.3")`. |
| ProjectGeoJson.MapPositions | src/helpers/projectGeoJSON.ts:22 | One position out per position in, each replaced by `conv.inverse` of itself. |
| ProjectGeoJson.MapRings | src/helpers/projectGeoJSON.ts:22 | One ring out per ring in, each with its positions inverse-projected. |
| ProjectGeoJson.ProjectAll | src/helpers/projectGeoJSON.ts:20 | A projected collection has as many members as the source. |
| ProjectGeoJson.Project | src/helpers/projectGeoJSON.ts:16-29 | A falsy source throws "source evaluates to false". Any type other than Polygon, MultiPolygon and GeometryCollection throws "Projection of GeoJSON type … has not been implemented". Success keeps the GeoJSON type. |
| ProjectGeoJson.ProjectPolygon | src/helpers/projectGeoJSON.ts:21-22 | A Polygon always projects. Ring count and ring lengths are kept, and each position becomes its inverse projection. |
| ProjectGeoJson.ProjectMultiPolygon | src/helpers/projectGeoJSON.ts:23-24 | The same for a MultiPolygon, one nesting level deeper. |
| ProjectGeoJson.ProjectAllMembers | src/helpers/projectGeoJSON.ts:19-20 | A GeometryCollection projects iff every member does. Member i of the result is the projection of member i. |
| ProjectGeoJson.ProjectAllFirstError | src/helpers/projectGeoJSON.ts:20 | A failing collection throws the error of its first failing member. |
| ProjectGeoJson.ProjectOkIff | src/helpers/projectGeoJSON.ts:16-27 | Projection succeeds exactly on values that contain no missing source and no unsupported type at any depth. |
| ProjectGeoJson.ProjectIdentity | src/helpers/projectGeoJSON.ts:18-24 | With the identity as converter, every projectable value comes back equal to the input. The function builds a new value of the same shape and changes nothing else. |
| ProjectGeoJson.ProjectCompose | src/helpers/projectGeoJSON.ts:18-24 | Projecting twice is projecting once with the composed converter. |
| GmlRing.Pairs | src/requesters/responseToLinkedData.ts:12-15 | The loop pushes `⌊n/2⌋` positions, position k being `(n[2k], n[2k+1])`. An odd trailing number is dropped. |
| GmlRing.PairsRoundTrip | src/requesters/responseToLinkedData.ts:13-15 | Unpairing the positions gives back every number except an odd trailing one. |
| GmlRing.ParseAll | src/requesters/responseToLinkedData.ts:10 | One number per space-separated piece, each that piece's `parseFloat`. |
| GmlRing.GmlToGeoJson | src/requesters/responseToLinkedData.ts:9-21 | The result is a Polygon with exactly one ring. |
| GmlRing.GmlRingIsClosed | src/requesters/responseToLinkedData.ts:10-20 | The ring has `⌊n/2⌋ + 1` positions, each pair parsed in order. With at least two numbers it ends where it starts, as section 3.1.6 of RFC 7946 requires. |
| GmlRing.SingleNumberRing | src/requesters/responseToLinkedData.ts:13-16 | A single number gives a one-position ring whose second coordinate is `undefined`. |
| LinkedData.Read | src/requesters/responseToLinkedData.ts:27 | Reading a property throws exactly on `null` or `undefined`. |
| LinkedData.GeometryNode | src/requesters/responseToLinkedData.ts:34-40 | Building the node throws exactly when `geojsonToWKT` throws, with its error. Otherwise the node carries an `@type` and a `geo:asWKT` literal. The literal's value is the EPSG:28992 CRS IRI followed by the geometry's WKT, and its type is `geo:wktLiteral`. |
| LinkedData.Attach | src/requesters/responseToLinkedData.ts:34 | Assigning the node to an object adds exactly the `geo:hasDefaultGeometry` key. |
| LinkedData.GeometryUnder | src/requesters/responseToLinkedData.ts:24-31 | Only the keys 'gml:Polygon' and 'geometrie' carry a geometry. Under 'geometrie' it is the value itself. |
| LinkedData.AddTranslatedGeoData | src/requesters/responseToLinkedData.ts:23-44 | Every other key returns the value unchanged, and so does a falsy 'geometrie'. A truthy 'geometrie' that `geojsonToWKT` rejects throws that error. |
| LinkedData.AddTranslatedKeepsFields | src/requesters/responseToLinkedData.ts:33-43 | On an object under either key, exactly `geo:hasDefaultGeometry` is added and every other field is kept. The WKT literal starts with the EPSG:28992 CRS IRI. |
| LinkedData.AddTranslatedGmlPolygon | src/requesters/responseToLinkedData.ts:26-41 | A GML polygon gets an `sf:Polygon` node whose WKT is that of the closed ring read from its `posList`. If `geojsonToWKT` throws on that ring, the reviver throws its error. |
| LinkedData.Vocab | src/requesters/responseToLinkedData.ts:54 | The vocabulary always ends in '#'. It is as long as the API URL when that ends in '#', and one longer otherwise. |
| LinkedData.VocabIdempotent | src/requesters/responseToLinkedData.ts:54 | The rule is a no-op on its own output. It leaves the URL unchanged iff the URL ends in '#'. Otherwise it only appends '#'. |
| LinkedData.Document | src/requesters/responseToLinkedData.ts:56-63 | The document has the response's keys plus `@context`, `@id` and `@reverse`. The response's own keys win a clash. Otherwise the three carry the vocabulary, the instance IRI and the reverse link to the building. |
| BlankNodes.MapTerms | src/requesters/responseToLinkedData.ts:72-78 | Mapping a list of terms gives exactly one output term per input term. |
| BlankNodes.MapQuads | src/requesters/responseToLinkedData.ts:81-87 | There is one output quad per input quad, in order. Every output quad is in the default graph, whatever graph the input quad named. |
| BlankNodes.MapQuadsIsMapTerms | src/requesters/responseToLinkedData.ts:81-87 | Mapping the quads is the same as mapping their subject, predicate and object terms in reading order, starting from the same label map. |
| BlankNodes.JsonldToQuads | src/requesters/responseToLinkedData.ts:67-89 | There are as many output quads as `toRDF` produced, all in the default graph. |
| BlankNodes.MapTermsState | src/requesters/responseToLinkedData.ts:71-78 | The label map only grows. A label keeps the node it was given. Nodes given to new labels are fresh. |
| BlankNodes.MapTermsKeeps | src/requesters/responseToLinkedData.ts:77 | Terms other than blank nodes are kept as they are. |
| BlankNodes.MapTermsLabels | src/requesters/responseToLinkedData.ts:75-76 | A labelled blank node becomes the node its label has in the final map. |
| BlankNodes.MapTermsUnlabelled | src/requesters/responseToLinkedData.ts:74 | A blank node without a label gets a node of its own. That node lies in the counter range of this run and is shared with no label and no other output term. |
| BlankNodes.RenamingIsConsistent | src/requesters/responseToLinkedData.ts:71-87 | Two labelled blank nodes get the same fresh node iff their labels agree. An unlabelled blank node gets a node no other term gets. Other terms are kept. The node made by the discarded call at line 80 is never used. |
| Strings.Split | src/requesters/responseToLinkedData.ts:10 | `split` with a literal separator always gives at least one piece. |
| Strings.SplitPiecesAvoidSeparator | src/requesters/responseToLinkedData.ts:10 | No piece of a split contains the separator. |
| Strings.ReplaceAllIsSplitJoin | src/core/valideer.ts:71 | `replaceAll` with a literal pattern replaces every occurrence, found left to right without overlap, and keeps everything between them. |
| Strings.ReplaceAllAbsent | src/core/valideer.ts:71 | A pattern that does not occur leaves the text unchanged. |
| Strings.NatToString | src/helpers/establishContext.ts:25-29 | `toString` of a natural gives decimal digits with no leading zero. It is one character long iff the number is below 10. |
| Strings.NatToStringRoundTrip | src/helpers/establishContext.ts:25-29 | Reading back the digits of `toString` gives the number. |
| Strings.PadStart | src/helpers/establishContext.ts:25-29 | `padStart` gives the longer of the text and the width. It ends with the text, and only fill characters come before it. |
| Strings.Pad2 | src/VCS/helperFunctions.ts:79-84 | Two-digit padding of a number below 100 is two digits long and reads back as the number. |
| Strings.Trim | src/VCS/helperFunctions.ts:146 | `trim` gives the infix of the text between the leading and trailing white space. That infix neither starts nor ends with white space. |
| Strings.SplitWhere | src/helpers/wktPolygonToCoordinates.ts:2 | Splitting on a one-character class gives at least one piece, and no piece holds a separator character. |
| Strings.SplitWhereJoin | src/helpers/wktPolygonToCoordinates.ts:2 | Splitting the join of separator-free pieces on a separator character gives the pieces back. |
| Strings.NonEmpty | src/helpers/wktPolygonToCoordinates.ts:2 | `filter(Boolean)` keeps exactly the non-empty strings. |
| Strings.NonEmptyKeeps | src/helpers/wktPolygonToCoordinates.ts:2 | A list with no empty strings passes the filter unchanged. |
| Strings.SplitJoinChar | src/VCS/helperFunctions.ts:143 | Splitting on one character undoes joining with it, when no piece holds that character. |
| Strings.SplitHasSecond | src/helpers/wktPolygonToCoordinates.ts:2 | A split has a second piece iff the separator occurs in the text. |
| NodePath.PathJoinKeepsAll | src/helpers/writeGraph.ts:14 | When no segment is empty, `path.join` is the plain "/"-join of the segments. |
| VcsHelpers.DateSplit | src/VCS/helperFunctions.ts:81 | Three digit fields joined by "-" split back into exactly those fields. |
| VcsHelpers.CurrentDateFields | src/VCS/helperFunctions.ts:73-90 | The "US" date splits on "-" into three digit fields. The first reads back as the year, the second is two digits reading back as `getMonth() + 1`, and the third is two digits reading back as the day. Any other format gives the same three fields in reverse order. |
| VcsHelpers.TokenVariable | src/VCS/helperFunctions.ts:109-126 | An environment variable is named iff the type is one of the three supported API types. |
| VcsHelpers.CheckApiKeyAsWritten | src/VCS/helperFunctions.ts:109-131 | As written, the check passes iff the type is the Ruimtelijke Plannen API and its key is set. |
| VcsHelpers.DsoKeysAlwaysRejected | src/VCS/helperFunctions.ts:110-131 | As written, both DSO types are rejected as "not supported" even with their keys set. |
| VcsHelpers.CheckApiKey | src/VCS/helperFunctions.ts:109-131 | The corrected check passes iff the type is supported and its own key is set. |
| VcsHelpers.CheckApiKeyAgrees | src/VCS/helperFunctions.ts:109-131 | The corrected and the as-written check differ iff a DSO type has its key set. Everywhere else they give the same result and the same message. |
| VcsHelpers.ScanPolygon | src/VCS/helperFunctions.ts:135 | A scan that succeeds finds a match of `POLYGON\s*\(\(\s*([^\)]+)\s*\)\)` starting at the scanned position, with the group the greedy expression picks. |
| VcsHelpers.ScanPolygonComplete | src/VCS/helperFunctions.ts:135 | Every match the expression picks is found by the scan. |
| VcsHelpers.ParsePolygonString | src/VCS/helperFunctions.ts:134-151 | The parse fails iff no position starts a match, and the failure is the "Invalid POLYGON string format" error. |
| VcsHelpers.ReadCoordinates | src/VCS/helperFunctions.ts:143-148 | There is one coordinate per comma-separated chunk, in order. |
| VcsHelpers.WordsOfJoin | src/VCS/helperFunctions.ts:146 | Space-separated words come back unchanged from `trim().split(/\s+/)`. |
| VcsHelpers.ReadPair | src/VCS/helperFunctions.ts:146-147 | The chunk `x y` reads as `[Number(x), Number(y)]`. |
| VcsHelpers.ParsePolygonRoundTrip | src/VCS/helperFunctions.ts:134-151 | `POLYGON((x0 y0,x1 y1,...))` parses back to exactly its coordinate pairs. |
| VcsHelpers.PolygonWithHoleRejected | src/VCS/helperFunctions.ts:135-140 | A polygon with an interior ring, `POLYGON((a),(b))`, is rejected as invalid. |
| WktCoordinates.Tokens | src/helpers/wktPolygonToCoordinates.ts:2 | The tokens are non-empty and hold no space or comma. |
| WktCoordinates.RingText | src/helpers/wktPolygonToCoordinates.ts:2 | The only failure is the TypeError of calling `split` on a missing second piece. |
| WktCoordinates.WktPolygonToCoordinates | src/helpers/wktPolygonToCoordinates.ts:1-3 | A failure is a TypeError. On success there is one number per token of the ring text. |
| WktCoordinates.WktThrowsIff | src/helpers/wktPolygonToCoordinates.ts:2 | The function throws iff the text holds no `((`. |
| WktCoordinates.TokensOfPairs | src/helpers/wktPolygonToCoordinates.ts:2 | The tokens of `x0 y0,x1 y1,...` are `x0, y0, x1, y1, ...` in order. |
| WktCoordinates.RingTextBetween | src/helpers/wktPolygonToCoordinates.ts:2 | The ring text is exactly what lies between the first `((` and the next `))`, when neither the prefix nor the ring holds a bracket. |
| WktCoordinates.WktRoundTrip | src/helpers/wktPolygonToCoordinates.ts:1-3 | Whatever precedes `((` (a CRS IRI, the keyword) and follows `))` is ignored. A ring `x0 y0,x1 y1,...` gives its numbers as the flat list `x0, y0, x1, y1, ...`. |
| WktCoordinates.NoRingThrows | src/helpers/wktPolygonToCoordinates.ts:2 | Text without an opening bracket makes the function throw a TypeError. |
| JsValues.Get | src/core/helpers/isGeoJSON.ts:12 | Reading a property gives the field of an object that has it, and `undefined` otherwise. |
| GeoJsonGuards.IsGeometryIff | src/core/helpers/isGeoJSON.ts:9-17 | `isGeometry` holds iff the value is an object whose `type` is the string of one of the seven geometry type names. |
| GeoJsonGuards.IsFeatureIff | src/core/helpers/isGeoJSON.ts:19-21 | `isFeature` holds iff the value is an object whose `type` loosely equals "Feature". |
| GeoJsonGuards.FeatureTypeInAnArray | src/core/helpers/isGeoJSON.ts:13-20 | Loose equality lets `{type: ["Feature"]}` pass as a feature. The strict `indexOf` rejects `{type: ["Polygon"]}` as a geometry. |
| GeoJsonGuards.IsFeatureCollectionAsWritten | src/core/helpers/isGeoJSON.ts:23-25 | As written, the guard throws a TypeError iff the value is a feature with a truthy `features`. Otherwise it answers false. |
| GeoJsonGuards.FeatureCollectionNeverRecognised | src/core/helpers/isGeoJSON.ts:23-25 | As written, the guard never answers true. An object of type "FeatureCollection" gets false. |
| GeoJsonGuards.IsGeoJsonIsGeometryOrFeature | src/core/helpers/isGeoJSON.ts:5-7 | `isGeoJSON` never throws and is exactly `isGeometry` or `isFeature`. A FeatureCollection is not recognised. |
| GeoJsonGuards.CorrectedGuardsSeparateKinds | src/core/helpers/isGeoJSON.ts:5-25 | No value passes two of the corrected guards. The corrected `isGeoJSON` adds exactly the feature collections to what the original accepts. |
| GeoJsonGuards.FeatureStrings | src/core/helpers/isGeoJSON.ts:20-24 | No value loosely equals both "Feature" and "FeatureCollection". |
| GeoJsonGuards.CollectionsRecognised | src/core/helpers/isGeoJSON.ts:23-25 | The corrected guard accepts an empty collection and a collection holding one feature. |
| WriteGraph.StripIriEnd | src/helpers/writeGraph.ts:9 | The result is a prefix of the input. A trailing run of slashes is removed entirely and leaves no slash at the end. Otherwise a final `#` is removed. Otherwise nothing changes. |
| WriteGraph.FormatUriSegments | src/helpers/writeGraph.ts:8-10 | Splitting the IRI on "/" gives the pieces of the stripped prefix followed by the path segments. Without segments the IRI is the stripped prefix. |
| WriteGraph.FormatUriIgnoresTrailingSlashes | src/helpers/writeGraph.ts:9 | Trailing slashes on a prefix make no difference to the IRI. |
| WriteGraph.OneEndingRemoved | src/helpers/writeGraph.ts:9 | Only one kind of ending goes: `a#/` becomes `a#`, and `a#` becomes `a`. |
| WriteGraph.Directories | src/helpers/writeGraph.ts:14 | `slice(0, -1)` drops exactly the last segment, and gives nothing for an empty path. |
| WriteGraph.FormatFilenameLeaf | src/helpers/writeGraph.ts:12-15 | The file name ends in `<last segment>.ttl`, and in `graph.ttl` for an empty name path. |
| WriteGraph.FormatFilenameLayout | src/helpers/writeGraph.ts:12-15 | Under a directory `d1/.../dn`, with or without trailing slashes, the path splits into the directory's segments, then every name-path segment but the last, then the file. |
| EstablishContext.Letters | src/helpers/establishContext.ts:22 | The result holds only ASCII letters and is no longer than the input. |
| EstablishContext.RemoveNonLetterRunsIsLetters | src/helpers/establishContext.ts:22 | Removing each maximal run of non-letters, left to right, keeps exactly the letters in order. |
| EstablishContext.LettersAppend | src/helpers/establishContext.ts:22 | The filter distributes over concatenation. |
| EstablishContext.LettersKeepsLetters | src/helpers/establishContext.ts:22 | A text of letters only is kept whole, so the filter is idempotent. |
| EstablishContext.BuildingName | src/helpers/establishContext.ts:22 | The building name holds only ASCII letters. |
| EstablishContext.BuildingNameOfFile | src/helpers/establishContext.ts:22 | For `<stem>.ifc` with no dot in the stem, the building name is the letters of the stem. None of the extension's letters survive. |
| EstablishContext.BuildingNameExample | src/helpers/establishContext.ts:22 | "Gebouw_01.ifc" gives "Gebouw". |
| EstablishContext.NamePrefix | src/helpers/establishContext.ts:32 | `substring(0, 18)` is a prefix of at most 18 characters, and the whole name when that is shorter. |
| EstablishContext.StampReadsBack | src/helpers/establishContext.ts:23-32 | With a four-digit year, the stamp `YYYY-MM-DD--HH-MM-SS` reads back as the year, `getMonth() + 1`, the given day field, hours, minutes and seconds. |
| EstablishContext.DatasetNameShape | src/helpers/establishContext.ts:31-32 | With the reported day, the dataset name is the 18-character name prefix, "--" and a stamp. The stamp reads back as a valid moment of the clock. The whole name is at most 40 characters, the limit the comment states. |
| EstablishContext.DatasetNameAsWrittenDayLate | src/helpers/establishContext.ts:26 | As written, the stamp's day is one past the clock's. On the last day of a month it names a day that month does not have. |
| EstablishContext.IfcFileName | src/helpers/establishContext.ts:13-20 | The file name is `args.ifc` or the trigger asset. It is the asset only when the asset ends in ".ifc". |
| EstablishContext.EstablishAsWritten | src/helpers/establishContext.ts:10-39 | The program as it runs. The run fails iff `--ifc` or `--ids` is missing, with a TypeError. Otherwise the dataset name is the one with the `getDate() + 1` day, built from the building name of `args.ifc`. |
| EstablishContext.Establish | src/helpers/establishContext.ts:10-39 | The corrected reading. It fails on the same inputs, and otherwise its dataset name carries the day the clock reports. |
| EstablishContext.EstablishDiffersOnlyInName | src/helpers/establishContext.ts:24-39 | The two readings fail together. Both place their paths under their own dataset name in the same way. |
| EstablishContext.ContextLayout | src/helpers/establishContext.ts:34-39 | The outputs and inputs directories are `outputs/<dataset>` and `inputs/<dataset>`. The IFC and IDS files sit directly inside the inputs directory. |
| EstablishContext.TriggerMovesOnlyIfcFile | src/helpers/establishContext.ts:13-38 | The trigger payload changes only the IFC file's path. The dataset name, both directories and the IDS path come from the arguments and the clock. |
| RuimtelijkePlannen.GeoShapeOf | src/controles/01-ruimtelijke-plannen/ruimtelijke-plannen.ts:13 | The search shape is a polygon with exactly one ring. |
| RuimtelijkePlannen.GeoShapeHoldsFootprint | src/controles/01-ruimtelijke-plannen/ruimtelijke-plannen.ts:11-13 | The footprint is the polygon's outer ring, and the shape holds nothing else. |
| RuimtelijkePlannen.LessIrreflexive | src/controles/01-ruimtelijke-plannen/ruimtelijke-plannen.ts:29-30 | No date string comes before itself. |
| RuimtelijkePlannen.LessTransitive | src/controles/01-ruimtelijke-plannen/ruimtelijke-plannen.ts:29-30 | The string order `<` is transitive. |
| RuimtelijkePlannen.LessTotal | src/controles/01-ruimtelijke-plannen/ruimtelijke-plannen.ts:26-32 | Of two different strings, one comes first, so the comparator answers 0 only for equal dates. |
| RuimtelijkePlannen.RelevantAsWrittenForStrings | src/controles/01-ruimtelijke-plannen/ruimtelijke-plannen.ts:19-22 | As written, for a status string, a plan is dropped iff it is a parapluplan or its status is a key of the array ("0", "1", "2", "length" or an inherited method name). |
| RuimtelijkePlannen.ListedStatusesKept | src/controles/01-ruimtelijke-plannen/ruimtelijke-plannen.ts:21 | As written, a plan with one of the three listed statuses passes the filter unless it is a parapluplan. The intended filter drops it. |
| RuimtelijkePlannen.ParapluplansRemoved | src/controles/01-ruimtelijke-plannen/ruimtelijke-plannen.ts:21 | Both filters drop every parapluplan. |
| RuimtelijkePlannen.Filter | src/controles/01-ruimtelijke-plannen/ruimtelijke-plannen.ts:19-22 | The kept plans all pass and come from the input. Every passing plan is kept. |
| RuimtelijkePlannen.FilterSingle | src/controles/01-ruimtelijke-plannen/ruimtelijke-plannen.ts:19-22 | One plan is kept iff it passes. |
| RuimtelijkePlannen.FilterAppend | src/controles/01-ruimtelijke-plannen/ruimtelijke-plannen.ts:19-22 | Filtering distributes over concatenation, so the kept plans stay in API order and keep their multiplicity. |
| RuimtelijkePlannen.Insert | src/controles/01-ruimtelijke-plannen/ruimtelijke-plannen.ts:26-32 | Insertion adds exactly the one plan. |
| RuimtelijkePlannen.InsertSorted | src/controles/01-ruimtelijke-plannen/ruimtelijke-plannen.ts:26-32 | Insertion keeps a list sorted by date. |
| RuimtelijkePlannen.SortByDatum | src/controles/01-ruimtelijke-plannen/ruimtelijke-plannen.ts:26-32 | The sort is a permutation of the plans. |
| RuimtelijkePlannen.SortByDatumSorted | src/controles/01-ruimtelijke-plannen/ruimtelijke-plannen.ts:26-32 | The sorted plans are in date order. |
| RuimtelijkePlannen.LatestIndexIsLatest | src/controles/01-ruimtelijke-plannen/ruimtelijke-plannen.ts:26-34 | The latest plan has no plan with a later date. Every plan after it in API order is strictly earlier, so it is the last plan of the latest date. |
| RuimtelijkePlannen.LastOfSortIsLatest | src/controles/01-ruimtelijke-plannen/ruimtelijke-plannen.ts:26-34 | The last plan after the stable sort is that latest plan. |
| RuimtelijkePlannen.SelectPlan | src/controles/01-ruimtelijke-plannen/ruimtelijke-plannen.ts:34-36 | Selection fails iff no plan is left, with a TypeError from reading `.id` of `undefined`. Otherwise the selected plan is one of the inputs. |
| RuimtelijkePlannen.SelectPlanIsLatest | src/controles/01-ruimtelijke-plannen/ruimtelijke-plannen.ts:26-36 | The selected plan is the latest one. |
| RuimtelijkePlannen.VoorbereidingAsWritten | src/controles/01-ruimtelijke-plannen/ruimtelijke-plannen.ts:10-39 | A selected plan passes the as-written filter and comes from the response. The search shape is the footprint's. |
| RuimtelijkePlannen.VoorbereidingAsWrittenSelectsLatest | src/controles/01-ruimtelijke-plannen/ruimtelijke-plannen.ts:10-39 | As the program runs: a TypeError iff no plan passes the as-written filter. Otherwise it selects the last passing plan of the latest date. |
| RuimtelijkePlannen.Voorbereiding | src/controles/01-ruimtelijke-plannen/ruimtelijke-plannen.ts:10-39 | A selected plan is relevant and comes from the response. The search shape holds the footprint. |
| RuimtelijkePlannen.VoorbereidingSelectsLatest | src/controles/01-ruimtelijke-plannen/ruimtelijke-plannen.ts:10-39 | The group fails with a TypeError iff no relevant plan is left. Otherwise it selects the last relevant plan of the latest date, with the footprint's search shape. |
| RuimtelijkePlannen.AdoptedPlanSelectedAsWritten | src/controles/01-ruimtelijke-plannen/ruimtelijke-plannen.ts:19-36 | As written, a plan `vastgesteld` that is not a parapluplan is selected. The intended filter leaves nothing to select. |
| Valideer.Ids | src/core/valideer.ts:38 | There is one id per check, in order. |
| Valideer.SomeMissingIff | src/core/valideer.ts:39 | `ruleIds.some(id => !groupRuleIds.includes(id))` holds iff some asked-for id is not among the group's ids. |
| Valideer.GroupRunsIff | src/core/valideer.ts:37-39 | A group runs iff no ids were asked for, or every asked-for id is the id of one of its checks. |
| Valideer.AllExecutedWithoutIds | src/core/valideer.ts:37-43 | Without ids, every check of every group is executed. |
| Valideer.Lookup | src/core/valideer.ts:64 | A defined value read from a row is the value of an entry with that key. A key the row lacks reads as `undefined`. |
| Valideer.Placeholder | src/core/valideer.ts:71 | A placeholder is `{?`, the key and `}`. |
| Valideer.Message | src/core/valideer.ts:63-69 | Without a row, `success` is false and the message is the failure text with no placeholder substituted. |
| Valideer.SubstituteAbsent | src/core/valideer.ts:69-73 | A message holding none of the row's placeholders is left unchanged. |
| Valideer.SubstituteOne | src/core/valideer.ts:71 | For one entry, every occurrence of its placeholder is replaced by the value's text, and the text between occurrences is kept. |
| Valideer.PassedAsWritten | src/core/valideer.ts:84 | As written, the `rpt:passed` literal is "true" iff `success` is falsy. |
| Valideer.Passed | src/core/valideer.ts:84 | In the corrected version, the literal is "true" iff `success` is truthy, and it is always "true" or "false". |
| Valideer.RunControle | src/core/valideer.ts:43-87 | A check throws iff its response failed, with the status text as the message. Otherwise its node carries the check's name. The `rpt:passed` literal is a parameter; the program's is PassedAsWritten. |
| Valideer.PassedMatchesMessage | src/core/valideer.ts:63-85 | With the corrected literal, the node says "true" iff the success message was chosen. An empty answer gives "false" and the failure message unchanged. Otherwise the message is the chosen template with the first row's placeholders substituted. |
| Valideer.PassedAsWrittenContradictsMessage | src/core/valideer.ts:64-84 | As written, a first row with `success: true` gets the success message but `rpt:passed "false"`. The corrected literal is "true". |
| Valideer.RunAll | src/core/valideer.ts:37-87 | For any `rpt:passed` literal, including the program's, the run succeeds iff every executed check's response succeeded. It then gives one node per check, in order. |
| Valideer.Valideer | src/core/valideer.ts:28-33 | For any `rpt:passed` literal, the report names the building `<baseIRI><dataset>/gebouw` and the input IFC. |
| Valideer.OneNodePerExecutedCheck | src/core/valideer.ts:16-99 | The report holds exactly one node per executed check, in order and named after it. The run throws iff some executed check's response failed. |
| Valideer.ValideerAsWrittenNegatesSuccess | src/core/valideer.ts:55-86 | In the report the program writes, every node carries its check's message, and its `rpt:passed` is "true" iff the check's first row does not report success. |
| Valideer.ValideerCorrectedMatchesMessage | src/core/valideer.ts:55-86 | With the corrected literal, every node's `rpt:passed` is "true" iff the check's first row reports success. |
| Dtap.DtapAccount | src/utils/dtap.ts:6-18 | It throws "Unanticipated DTAP environment." iff the environment is none of the four. There is no account iff the environment is development, and "rotterdam" otherwise. |
| Dtap.GetDataset | src/utils/dtap.ts:20-33 | It throws iff the environment is unknown. Otherwise the dataset is the name followed by the environment's suffix, so it starts with the name. |
| Dtap.GetDatasetPerEnvironment | src/utils/dtap.ts:20-33 | Development and production keep the name. Testing and acceptance append "-testing" and "-acceptance". |
| Dtap.DatasetBaseInverts | src/utils/dtap.ts:20-33 | Dropping the environment's suffix gives back the name. |
| Dtap.GetDatasetInjective | src/utils/dtap.ts:20-33 | Within one environment, different names give different datasets. |
| Dtap.HelperAccount | src/helpers/getAccount.ts:15-23 | There is no account iff the environment is development, and "rotterdam" in production. Otherwise the account is "rotterdam-" and the environment in lower case. It never throws. |
| Dtap.HelperAccountTable | src/helpers/getAccount.ts:3-13 | Testing and acceptance give "rotterdam-testing" and "rotterdam-acceptance", as the DTAP table in the comment says. |
| Dtap.AccountsCompared | src/helpers/getAccount.ts:15-23 | The two `getAccount` functions agree in development and production and differ in testing and acceptance. Only the one in `src/utils/dtap.ts` throws on an unknown environment. |
| OperatingSystem.GetOperatingSystem | src/helpers/getOperatingSystem.ts:3-25 | Every failure is the "not recognized" error naming the platform and the architecture. |
| OperatingSystem.GetOperatingSystemIsTable | src/helpers/getOperatingSystem.ts:7-24 | The function answers exactly the supported table and throws off it. In particular `win32` and `linux` throw on any architecture but `x64`, despite the fall-through. |
| OperatingSystem.NamesIdentifyPlatform | src/helpers/getOperatingSystem.ts:7-24 | Each name returned belongs to exactly one platform. |

## Left out

- Floating point: Python floats and JavaScript numbers are reals. NaN appears only where a zero-area face's normal is rejected. Overflow, infinities and binary representation are not modelled.
- Analysis.Round: rounds half to even on the exact real value. Python's `round` rounds the binary double, so a decimal tie that a double cannot hold exactly (`round(2.675, 2) == 2.67`) can go the other way. Both stay within half a unit of the last kept decimal.
- `sin`, `cos`, `arctan` and `sqrt` are not computed. They are parameters that obey the laws of `Analysis.Lawful`, so no value of an angle is ever evaluated.
- Shapely's `unary_union` and `convex_hull` are parameters with no laws. Area and length are inputs of the elongation lemmas. The model states what each script does around them.
- ifcopenshell (`open`, `by_type`, `create_shape`) is not modelled. The meshes and the IfcMapConversion records are inputs, and a failed `create_shape` is a missing mesh.
- numpy is not modelled beyond the array shapes `get_footprint` relies on. A mesh without faces is the IndexError numpy raises when indexing an empty array by column.
- PyFootprint.Georeference: takes the map conversions as a parameter. The script reads them from the module-level `ifc_file`, which at that point is a path string, so the lookup itself would fail.
- Printing, plotting, CSV and JSON writing, `argparse`, `sys.argv`, and reading files are not modelled. Where a script's result is written to a file, the model returns it instead.
- python/footprint.py after `exit(0)` (the abandoned edge-walking and concave-hull code) is not modelled, because it never runs.
- `conv.inverse` of proj4, `parseFloat`, `Number` and `String()` are parameters. `geojsonToWKT` is a parameter of the geo-data step that may throw, as it does on a value that is not a GeoJSON geometry.
- `jsonld.toRDF` is not modelled. Its quads are the input of `jsonldToQuads`, and the data factory's blank-node counter is a number.
- BlankNodes.JsonldToQuads: the node `dataFactory.blankNode()` returns is modelled by its counter value, not by the `b<n>` label it prints as.
- JsValues.Truthy: NaN is not a number value of the model, so the falsiness of NaN is left out.
- Strings.ReplaceAll: covers a literal pattern with the replacement inserted as it is. JavaScript's `$$`, `$&`, `` $` `` and `$'` patterns in a replacement string are not expanded.
- Valideer.SubstituteOne: inserts the SPARQL binding's text as it is. JavaScript's `replaceAll` would expand `$$`, `$&`, `` $` `` and `$'` in that text, so a binding containing `$` followed by one of those characters is substituted differently in the program.
- Strings.IsSpace: is the ECMAScript white-space and line-terminator set used by `\s` and `trim`. VcsHelpers.Words is stated only for trimmed text, which is how the code calls it.
- NodePath.PathJoin: covers segments that need no normalising (no `.` or `..`, no repeated or trailing "/"). Node's full normalisation is not modelled. WriteGraph.Segment excludes `.` and `..` for this reason.
- Geometry.MakePolygon: follows shapely 2.0's `linearrings`, which counts the closing coordinate it would add and rejects fewer than four. So a closed three-coordinate input such as `[a, b, a]` is a ValueError. The repository pins no shapely version, and a release that treats such input differently is not modelled.
- Dtap.HelperAccount: lowercases ASCII letters only. JavaScript's `toLowerCase` is Unicode-wide. The environment names the code passes are ASCII.
- The clock (`new Date()`), `process.env`, `process.argv` and the trigger payload are parameters. EstablishContext stamps are stated for four-digit years. The JSON parse of the trigger payload is not modelled, only the asset name it yields.
- RuimtelijkePlannen.Plan: `planstatusInfo.datum` is a string. Comparing other kinds of value with `<` is not modelled.
- Valideer: the SPARQL request is the parameter `respond`, and rows parsed from the JSON body are taken to be objects. The TriplyDB account lookup, the report upload and the logging are not modelled.
- The HTTP clients, TriplyDB/TriplyETL pipelines, process execution, provenance, report rendering and the remote SPARQL and SHACL rule texts are not modelled. They are I/O or are evaluated by a remote engine.
- ifctester validation (`validate_IFC.py`) is a foreign library and is not modelled.
- MapConversionText.Search: `\d` is the ASCII digits 0-9. Python's `\d` on a `str` also matches other Unicode decimal digits, which STEP text, being 7-bit, does not contain.
- LinkedData.Attach: assigning to an array returns the array unchanged. JavaScript adds a named property to it, which the value model cannot hold.
- VcsHelpers.CurrentDate: the `format` argument is required. The default `"US"` of `getCurrentDate` is the caller passing "US".

## Findings

| source | as written | input that shows it | evidently intended | confidence | as-written member | corrected member |
|---|---|---|---|---|---|---|
| src/tools/footprint.py:67 | The MultiPolygon branch takes the rings of `object_footprint`, the last element's footprint, instead of the union. | Two separate buildings whose footprints are single polygons: their union is a MultiPolygon, and asking the last Polygon for `.geoms` raises an AttributeError. | One exterior ring per component of the union. | medium, not executed | SrcFootprint.SeparateBuildingsDefeatAsWritten | SrcFootprint.OuterShape |
| python/footprint.py:55-56 | `main` passes `unioned_geometry.exterior`, a LinearRing, to `georeference`, which reads `.exterior` again at line 78. | Any input: a LinearRing has no `.exterior`, so the script never produces a footprint. | Pass the union, and let `georeference` take its exterior. | high, not executed | PyFootprint.ScriptAsWrittenAlwaysFails | PyFootprint.ScriptGeoreferencesUnion |
| src/core/helpers/isGeoJSON.ts:24 | `isFeatureCollection` tests `type == 'Feature'` and calls `features.all`, which arrays do not have. | `{type: 'FeatureCollection', features: []}` gives false. `{type: 'Feature', features: [1]}` throws a TypeError. | `type == 'FeatureCollection'` and `features.every(isFeature)`. | high, not executed | GeoJsonGuards.FeatureCollectionNeverRecognised | GeoJsonGuards.CorrectedGuardsSeparateKinds |
| src/VCS/helperFunctions.ts:122-131 | Three separate `if`s, the last with an `else` that throws "not supported". | `checkAPIKey("DSO Production API")` with `DSO_Production_API_TOKEN` set throws "not supported". | An `else if` chain: each supported type passes when its own key is set. | high, not executed | VcsHelpers.DsoKeysAlwaysRejected | VcsHelpers.CheckApiKeyAgrees |
| src/helpers/establishContext.ts:26 | The day field is `getDate() + 1`. | On 31 January the stamp reads `-01-32`. | `getDate()`, as the month field already corrects only `getMonth()`. | high, not executed | EstablishContext.DatasetNameAsWrittenDayLate | EstablishContext.DatasetNameShape |
| src/controles/01-ruimtelijke-plannen/ruimtelijke-plannen.ts:21 | `status in [...]` tests the array's keys, not its elements. | A plan with status 'vastgesteld' that is not a parapluplan passes the filter and is selected. | Drop plans whose status is one of the three listed strings. | medium, not executed | RuimtelijkePlannen.AdoptedPlanSelectedAsWritten | RuimtelijkePlannen.VoorbereidingSelectsLatest |
| src/core/valideer.ts:84 | The `rpt:passed` literal is `(!!!success).toString()`, the negation of `success`. | A first row `{success: true}` gets the success message and `rpt:passed "false"`. | `(!!success).toString()`, agreeing with the message. | high, not executed | Valideer.PassedAsWrittenContradictsMessage | Valideer.PassedMatchesMessage |
