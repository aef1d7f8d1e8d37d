# matter-js-playground: a Dafny model of its data handling

matter-js-playground has two demos.

- **The map demo** (map-integration.js) loads vector tiles of Vienna and converts each tile's building layer to GeoJSON features. It then merges fragments of the same building (features with the same id) by a turf `union`, rewinding the result each time. Finally it triangulates every building with earcut.
- **The physics demo** (main.js, svg.js) reads the paths of an SVG city plan. It computes their common bounding box and turns the first subpath of every path into a Matter.js body, in batches of fifty. After every physics update it calls `applyAttraction`, which lets the five largest bodies attract all the others.

This project models the sequential logic between the libraries as pure Dafny functions, methods and lemmas over immutable sequences and datatypes. The libraries themselves are parameters:

- turf `union` and `rewind`
- `toGeoJSON`
- the SVG path parser
- simplify-js
- Matter's body construction

Modules, one per file:

- `Basics` (basics.dfy): `Option` for JavaScript's `undefined`, and `Point`.
- `Seqs` (seqs.dfy): the order-preserving filter, concatenation, the fixed-size slicing both `i += k` loops perform, and adjacent-repeat removal.
- `Sorting` (sorting.dfy): JavaScript's `Array.prototype.sort`. The language requires this sort to be stable, and a stable sort by a consistent comparator has exactly one result. The module models it as stable insertion sort and proves the result sorted, a permutation and stable.
- `Features` (features.dfy): the GeoJSON feature, reduced to its id, its other properties and its geometry. `localeCompare` on ids is modelled as lexicographic order on character codes, proved a strict total order.
- `Merge` (merge.dfy): the sort-then-reduce merge of same-id fragments.
- `Tiles` (tiles.dfy): `geojson`, the per-tile collection, and the whole map pipeline up to the merge.
- `Triangulation` (triangulation.dfy): from earcut's index list to coordinate pairs and triangles.
- `SvgPath` (svgpath.dfy): the bounding box, the first-subpath filter, and the canvas offset and scale.
- `Attraction` (attraction.dfy): the choice of the five attracting bodies and of the pairs they pull.
- `PathBatches` (pathbatches.dfy): `processPaths`, with the batching loop and the per-path outcome.

## Model

| member | source | states |
|---|---|---|
| Features.ByIdIsStrictWeakOrder | map-integration.js:103 | ordering by id is a strict weak order, so the sort is well defined |
| Features.IdLessTotal | map-integration.js:103 | of two different ids one sorts before the other, so a comparison of 0 means equal ids |
| Sorting.SortBySorted | map-integration.js:103 | after the sort no feature is preceded by one that sorts after it |
| Sorting.SortByStable | map-integration.js:103 | features that compare equal keep their input order through the sort |
| Merge.ReduceIds | map-integration.js:104-125 | the ids after the fold are the input ids with adjacent repeats collapsed, whatever the input order |
| Merge.ReduceKeepsIdSet | map-integration.js:104-125 | the fold loses no id and invents none |
| Merge.UnsortedRunsStaySeparate | map-integration.js:104-125 | without the sort, ids b, a, b give three entries: the two b fragments are never unioned |
| Merge.JoinedGroup | map-integration.js:108-119 | when the current feature has the last entry's id, that entry keeps its id and properties and its geometry becomes rewind(union(last, cur)) |
| Merge.OtherGroupUnchanged | map-integration.js:120-122 | a feature with a new id leaves the merged entries of other ids as they were |
| Merge.SortedReduce | map-integration.js:104-125 | on sorted input the fold yields strictly increasing ids, and each entry is the first feature of its id group with the geometries of the whole group united in order |
| Merge.MergeById | map-integration.js:102-125 | the merge keeps exactly the input ids, one entry per id, in strictly increasing order, each entry being the merge of every input feature with that id in input order |
| Merge.SingletonPassesThrough | map-integration.js:105-122 | a feature whose id occurs once comes out unchanged, with no union or rewind applied |
| Merge.MergedGroupsRewound | map-integration.js:112-119 | every entry built from two or more fragments has a geometry that rewind produced, so it has whatever winding rewind guarantees |
| Merge.TwoBuildingsScenario | map-integration.js:102-125 | two fragments of one building and one of a later id give two entries: the rewound union of the two fragments, then the third feature unchanged |
| Tiles.GeoJson | map-integration.js:52-60 | undefined exactly when the layer is missing. Otherwise the output is the converted layer features the filter accepts, in layer order, no more than the layer holds; each decision sees the features kept before it; with the default filter the whole layer is converted |
| Tiles.CollectAsWritten | map-integration.js:80-85 | the collection as written fails exactly when some tile lacks the "public.data_building" layer |
| Tiles.CollectMembers | map-integration.js:82-84 | the corrected collection contains every building feature of every tile and nothing else |
| Tiles.CollectAgrees | map-integration.js:82-84 | wherever the code as written does not throw, it gives the corrected collection |
| Tiles.MissingLayerLosesEverything | map-integration.js:82-84 | a tile without the building layer makes the collection as written fail, even for the buildings of the other tiles; the corrected collection keeps those buildings |
| Tiles.Buildings | map-integration.js:79-125 | the map pipeline with the corrected collection (where the code as written does not throw the two agree, by Tiles.CollectAgrees): every building id found in any tile appears among the merged buildings, which are in strictly increasing id order and each the merge of its fragments |
| Triangulation.TriangleCorners | map-integration.js:134-141 | one entry per earcut index, in order; entry i reads positions index*dims and index*dims+1 of the vertex list, and both are defined exactly when index*dims+1 is inside the list |
| Triangulation.InterleaveAt | map-integration.js:131 | in the flattened ring, point k sits at positions 2k and 2k+1 |
| Triangulation.CornerOfRing | map-integration.js:131-140 | over a flattened two-dimensional ring, an index reads back exactly the point it names, and an index past the ring reads undefined twice |
| Triangulation.Triples | map-integration.js:145-151 | the loop over i = 0, 3, 6, … takes exactly the consecutive three-element slices of the corner list |
| Triangulation.WholeTriangles | map-integration.js:145-151 | when earcut returns a multiple of three indices, every slice is a full triangle and there are a third as many slices as indices |
| Seqs.ChunkCount | main.js:119-121 | slicing a list of length N by k gives ceil(N / k) pieces |
| Seqs.ChunkAt | main.js:119-121 | piece j is `slice(j*k, j*k + k)`, clamped at the end of the list |
| Seqs.ChunksFlatten | main.js:119-121 | the pieces joined in order give the list back |
| SvgPath.BoxOf | svg.js:19-29 | the box is empty exactly when there is no M or L segment; otherwise it contains every M and L segment |
| SvgPath.BoxAttained | svg.js:24-27 | each of the four bounds is the coordinate of some M or L segment |
| SvgPath.BoxIgnoresOtherSegments | svg.js:23 | segments other than M and L leave the box unchanged |
| SvgPath.BoundingBox | svg.js:16-33 | over all paths: the box stays at the Infinity sentinels (None) exactly when no path has an M or L segment; otherwise it holds every such segment of every path, and its bounds are attained |
| SvgPath.KeepFirstSubpath | svg.js:41-44 | the stateful filter keeps a prefix holding at most one M, and it stops only at the second M |
| SvgPath.FirstSubpath | svg.js:39-44 | the kept segments are only M and L segments, in their order, and exactly the longest prefix of the M/L-filtered list with at most one M |
| SvgPath.Vertices | svg.js:45 | as many vertices as kept segments, vertex i being ((x - offsetX) * scale, (y - offsetY) * scale) of segment i |
| SvgPath.CanvasFits | main.js:116-117 | offset by the box's lower corner with a positive scale, every vertex in the box lands between the origin and the scaled box size |
| Attraction.Attractors | main.js:172-185 | at most five attractors, none a border; all come from the world without repetition, in descending area; no non-border body left out is larger than any chosen one |
| Attraction.RankingKeepsTies | main.js:177-182 | bodies of equal area keep their world order in the ranking |
| Attraction.Pulls | main.js:188-190 | the nested loops produce a pair for every attractor and every body with a different id, and no other pair |
| Attraction.Targets | main.js:189-197 | the inner loop gives one pair for each body whose id differs from the attractor's, in the order of the bodies, and no other pair |
| Attraction.AttractionPairs | main.js:172-199 | one call of applyAttraction applies a force exactly for pairs of a chosen attractor and a different non-border body of the world; no border pulls or is pulled, and no body pulls itself |
| Attraction.PullsOnce | main.js:188-197 | when attractor ids and body ids are each distinct, no (attractor, body) pair receives a force twice in one call of applyAttraction |
| Attraction.PullsCount | main.js:188-197 | with distinct body ids and attractors drawn from the bodies, the loops apply (number of attractors) * (number of bodies - 1) forces |
| Attraction.EachPairOnce | main.js:172-199 | in a world with unique body ids, each attractor pulls every other non-border body exactly once per call of applyAttraction: no pair twice, and (number of attractors) * (number of non-border bodies - 1) forces in all |
| PathBatches.ProcessOne | main.js:122-133 | a body is attempted exactly when the path parses and simplifies to more than two vertices, and with those vertices; fewer vertices give a warning; a parse or simplify error gives an error report |
| PathBatches.ProcessBatch | main.js:122-133 | a batch appends the outcomes of its paths in order and yields no frame |
| PathBatches.ProcessBatches | main.js:119-135 | the events are, batch after batch, the outcomes of that batch's paths followed by one frame yield, so a yield falls after every batch and nowhere else; every path's outcome is the one it has on its own, in input order; there are ceil(N / 50) yields; the batches are the 50-path slices of the input, each non-empty, all but the last exactly 50 long, and together give the input back |
| PathBatches.BoxAsWrittenFails | svg.js:16-33 | getSVGBoundingBox, parsing every path in turn outside any try block (main.js:105), throws exactly when some path does not parse |
| PathBatches.BoxAsWrittenIsBoundingBox | svg.js:16-33 | when getSVGBoundingBox does not throw, its running box over the paths in order is the bounding box of all their segments |
| PathBatches.ProcessPathsAsWritten | main.js:104-136 | processPaths as written, with the frame taken from getSVGBoundingBox as written, fails as a whole exactly when some path does not parse |
| PathBatches.UnparsablePathStopsAll | main.js:105 | a well-formed path followed by a malformed one: as written, nothing is processed; corrected, the first path still becomes a body |
| PathBatches.ProcessPaths | main.js:104-136 | corrected processPaths has one outcome per path, and an unparsable path is reported as a failure of its own |
| PathBatches.ProcessPathsAgrees | main.js:104-136 | wherever the code as written does not throw, its box and so its frame are those of the corrected version, and it gives the corrected outcomes |
| PathBatches.FailureIsIsolated | main.js:122-133 | removing a path that does not parse leaves every other path's outcome unchanged |

## Left out

- Fetching and decoding the tiles (map-integration.js:65-76): this is network I/O and `Promise.all`. A tile is given as its coordinates and decoded layers.
- `VectorTileFeature.toGeoJSON`: a function parameter. The d3 projection, the tile layout and `toMercator` (map-integration.js:22-35, 87-98, 130) are floating-point numerics and are not modelled.
- turf `union`, `@mapbox/geojson-rewind`, earcut and simplify-js are uninterpreted functions. `union` is modelled as total: the case where it returns null and `.geometry` then throws is not modelled.
- `localeCompare` (map-integration.js:103): modelled as lexicographic comparison of character codes. Locale collation rules are not modelled. The merge proofs need only a strict total order in which a comparison of 0 means equal ids.
- `holes`: the hole offsets earcut.flatten passes to earcut are used only inside earcut, so they are left out. The dimension count is a parameter of `Triangulation.TriangleCorners`; the ring lemmas fix it at 2.
- Canvas drawing (`drawPoly`, map-integration.js:155-176), the SVG markup (180-187) and the device-pixel-ratio setup (37-49): rendering only.
- The SVG file fetch and DOMParser (svg.js:5-13) and the SVG path parser are left out; the parser is a function that returns `None` where it would throw. The console message for segments without coordinates (svg.js:22) is left out: M and L segments always carry both.
- The scale of processPaths (main.js:106-114) is a division of window size by box size: floating point, and Infinity for a flat box. The scale is a parameter. Without any vertex the box keeps its Infinity sentinels; the model then uses a zero offset, which is immaterial because no path has a vertex to place.
- `calculateCentroid` and `Matter.Bodies.fromVertices` (main.js:68-101) form one function parameter, which returns `None` where construction throws. `Matter.World.add` is modelled as the `Added` outcome.
- The `requestAnimationFrame` wait (main.js:134) is a `FrameYield` event; timing is not modelled.
- The Matter.js engine, renderer, runner, borders, mouse constraint and event registration (main.js:6-65, 139-169) are a physics library and UI. Body areas (`Matter.Vertices.area`) are inputs. The force magnitude (main.js:191-196) is floating point; only which pairs receive a force, and how often, is modelled. A NaN area is not modelled.
- The afterUpdate listener is registered again on every call of `init` (main.js:152, exposed for reuse at main.js:202), and clearing the world and engine (main.js:140-141) does not remove it. After a second `init` each update therefore runs `applyAttraction` more than once. The model covers one call; repeated registration is not modelled.
- Object identity (`bodyA !== bodyB`, main.js:190) is modelled by Matter's unique body id. The no-repeat and count lemmas of `Attraction` assume distinct ids, which Matter guarantees.
- Coordinates, the bounding box, the scale and the canvas transform of svg.js:17-45 and main.js:105-117 are exact reals. Double rounding, NaN and the ±Infinity values JavaScript produces are not modelled, apart from the empty box, which is `None`. So the transform's properties (`SvgPath.Vertices`, `SvgPath.CanvasFits`) hold of the exact computation, not of the program's doubles.
- Triangulation.InterleaveAt: covers Polygon geometries only, for the reason given on the next line.
- Triangulation.CornerOfRing: covers Polygon geometries only, whose `coordinates` are rings of points that earcut.flatten interleaves (map-integration.js:131). A unioned building may be a MultiPolygon, one level deeper; what earcut.flatten makes of that is earcut's own code and is not modelled. `Triangulation.TriangleCorners` still holds for any vertex list and dimension.
- vite.config.js is build configuration only.

## Findings

| source | as written | input that shows it | evidently intended | confidence | as-written member | corrected member |
|---|---|---|---|---|---|---|
| map-integration.js:82-84 | `geojson(d, d.layers["public.data_building"]).features` reads `.features` of the `undefined` that `geojson` returns for a missing layer (line 53). The TypeError ends `main`, so no building of any tile is drawn | two tiles, the second without a "public.data_building" layer | a tile without the building layer contributes no features | medium, not executed | Tiles.MissingLayerLosesEverything | Tiles.CollectMembers |
| main.js:105 | getSVGBoundingBox parses every path before the batch loop and outside any try block. One path the parser rejects throws there, and no path becomes a body, although the loop reports and skips failing paths one by one (main.js:130-132) | a well-formed path followed by a malformed one | the malformed path is reported and skipped; the others are processed | medium, not executed | PathBatches.UnparsablePathStopsAll | PathBatches.FailureIsIsolated |
