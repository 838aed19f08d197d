# cogj in Dafny

A model of the core of **cogj** ("cloud-optimised GeoJSON") and the
serverless WFS front end built on it. The system writes GeoJSON feature
collections in chunks behind a JSON header. A reader fetches the header once
and selects the chunks whose bounding boxes meet a query. It reads those
chunks by HTTP byte ranges and serves them as WFS 2.0 `GetFeature` pages in
GML.

The model covers:

- **Feature pipeline** (`Utilities`, `Filter`, `Features`): the
  chunking `grouper` and the recursive `flatten` of cogj, the
  `FeatureFilter` pipeline (validate, process properties, take, chunk) with
  the schema as an abstract predicate, and the `Feature` and
  `FeatureCollection` records with their equality, which is Python's `==`
  on their representations (`True == 1` included).
- **Identities** (`Identity`): the per-class-name counters of
  `IdentityMixin`, ids handed out lazily on first access.
- **R-tree** (`RTreeNode`, `RTree`): node construction, the `intersects`
  test exactly as written (it is not box overlap), the cached centre,
  recursive search, the builder's fan-out check, `height`, `n_nodes`,
  `n_subtrees` and `topology` in integer arithmetic, stable `argsort` with
  the centres its keys cache, the
  base case of `pack`, and the lazily created root of `Tree`.
- **Chunk selection** (`ChunkSelection`, `FlaskGeoServerless`,
  `ZappaGeoServerless`): the header cache of the two `Geo_Serverless`
  copies, selection of collections by closed-rectangle intersection, the
  smallest collection, the byte ranges requested and the concatenation of
  the fetched features, and the metadata abstract.
- **GeoJSON to GML** (`GmlCoords`, `Gml`): the padding `grouper`,
  the coordinate `flatten`, bounding boxes of flat coordinate lists, the
  union box of a page, (x, y) to (y, x) swapping of position lists, the
  in-place rewrite of MultiPolygon exterior rings, the feature id lookup, the
  geometry dispatch and `GeoJSON2GML.convert`.
- **WFS paging** (`WfsServer`): next and previous page tests, their
  `STARTINDEX` and `COUNT` values, `numberMatched` and `numberReturned` in
  both result modes, and the y-first order of envelope corners.
- **Small parsers** (`Aws`, `ApiUtils`): the AWS credentials file
  parser and the Flask helpers `get_request_arg_casei`, `get_env`, `is_dev`
  and `merge_dicts`.

Support modules: `Wrappers` (Option, Result and the Python exceptions as
error values), `PyText` (`str.lower`, `strip`, `split`, `int()` and
`str()` of integers), `Floats` (floats with infinities and NaN, as the
R-tree's default bounds need), `Seqs` and `Arith` (small sequence and
arithmetic facts).

Python exceptions are error values: an operation that can raise returns a
`Result`. HTTP requests, the process environment and the Flask request are
parameters. An object whose attributes the source updates is a `class`, and
its methods state the new state.

## Model

| member | source | states |
|---|---|---|
| Utilities.Grouper | cogj/utilities.py:13-21 | `grouper(size, xs)` run to the end: for a positive size the chunks concatenate back to `xs`, none is empty, and all but the last hold exactly `size`; size 0 yields nothing, None takes everything, a negative size is islice's ValueError |
| Utilities.ChunksOfIsChunking | cogj/utilities.py:16-21 | the chunks of a positive size rebuild the input, each holds 1 to `size` items, all but the last exactly `size` |
| Utilities.ChunkCount | cogj/utilities.py:18-20 | a chunking into size `n` has `ceil(len(xs) / n)` chunks |
| Utilities.FlattenOnlyLeaves | cogj/utilities.py:23-29 | `flatten` yields only leaves; strings and bytes are leaves, not iterated |
| Utilities.FlattenAppend | cogj/utilities.py:25-29 | flattening is element by element: `flatten(a + b) == flatten(a) + flatten(b)` |
| Utilities.FlattenFlat | cogj/utilities.py:28-29 | a list without nested iterables comes back unchanged, strings included |
| Utilities.FlattenIdempotent | cogj/utilities.py:23-29 | flattening twice equals flattening once |
| Utilities.FlattenKeepsEveryLeaf | cogj/utilities.py:25-29 | the output has exactly as many items as there are leaves below the input |
| Utilities.FlattenExample | cogj/utilities.py:23-29 | `[[2,3],[4],[5,6,7]]` flattens to `[2,3,4,5,6,7]`, and so do any six numbers in that shape |
| Filter.SchemaOf | cogj/filter.py:70-76 | the schema setter: None removes the schema, a compiled schema is kept, a plain one is wrapped with extra keys allowed and accepts what it accepts |
| Filter.KeepNameIsOneKey | cogj/filter.py:54-59 | a string keeps the one key it spells, as a one-element list would, and not the keys of its letters |
| Filter.ValidateCharacterised | cogj/filter.py:89-102 | with no schema every feature passes; with one, the output is the subsequence of exactly the features whose properties it accepts |
| Filter.Restrict | cogj/filter.py:131-139 | the filtered properties have exactly the kept keys present in the feature, with their values |
| Filter.ProcessCharacterised | cogj/filter.py:104-139 | processing fails (AttributeError on `.items()`) exactly when filtering by keys meets a feature without properties; otherwise each feature is kept, stripped to its geometry, or restricted to the kept keys, in order |
| Filter.Take | cogj/filter.py:40-42 | `take(n)` gives the first `min(n, len)` items, a prefix of the input |
| Filter.ProcessTakeCommute | cogj/filter.py:39-46 | taking before processing gives what taking after processing gives, so the lazy pipeline yields what an eager one would |
| Filter.FeatureFilter.constructor | cogj/filter.py:32-36 | the filter stores the set schema, the limit, the chunk size (`chunk or False`) and the property mode |
| Filter.FeatureFilter.SetSchema | cogj/filter.py:70-76 | the schema attribute becomes the set schema |
| Filter.FeatureFilter.SetPropertyFilter | cogj/filter.py:52-63 | the property mode becomes one key for a string, the key set for another iterable, otherwise keep-all or remove-all by truth |
| Filter.FeatureFilter.Call | cogj/filter.py:48-50 | calling the filter runs the pipeline on its current settings |
| Filter.LimitCountsValidFeatures | cogj/filter.py:39-42 | with limit `L` and no chunking the output has `min(L, number of valid features)` features |
| Filter.ChunksAreFull | cogj/filter.py:43-45 | with chunking the chunks concatenate to the processed features, all but the last are full, and all are full when the chunk size divides their number |
| Filter.DefaultFilterIsIdentity | cogj/filter.py:32-46 | no schema, all properties kept, no limit, no chunk: the output is the input |
| Features.PyValueKeepsBoolFree | cogj/feature.py:29-31 | Python's `==` on values without booleans is structural equality |
| Features.PyValueIdempotent | cogj/feature.py:29-31 | what `==` compares holds no booleans, so reading booleans as numbers twice changes nothing more |
| Features.FeatureEqualsIffSame | cogj/feature.py:21-31 | two features are `==` exactly when they have the same geometry and properties once every boolean is read as the number 0 or 1, as Python's `True == 1` does; nothing else of a feature is lost in its representation |
| Features.TrueEqualsOne | cogj/feature.py:29-31 | a feature with property `True` and one with property `1` are different values that compare equal |
| Features.ShapeIsNoFeature | cogj/feature.py:21-27 | a shape's mapping never equals a feature's representation |
| Features.NewFeatureHasNoProperties | cogj/feature.py:17-19 | `Feature(g)` has geometry `g` and properties None |
| Features.NewCollectionKeepsFeatures | cogj/feature.py:52-54 | a collection of Features (vacuously, of nothing) keeps the given sequence |
| Features.NewCollectionWraps | cogj/feature.py:55-57 | otherwise every object becomes `Feature(object)`, in order |
| Features.IterateShapes | cogj/feature.py:74-75 | iterating a collection of shapes yields `Feature(g)` for each shape, in order |
| Features.CollectionEqualsIffSameFeatures | cogj/feature.py:67-79 | two collections are `==` exactly when they hold equally many features and the features are pairwise `==`, in order |
| Identity.Counters.Take | cogj/identity.py:20 | `next(counters[name])` returns the counter's value and advances that counter only |
| Identity.Identified.Ident | cogj/identity.py:22-29 | the first access takes the next value of the class's counter and stores it; later accesses return the stored id and leave the counters alone |
| Identity.IssueCounts | cogj/identity.py:20-29 | the i-th first access gets its class's starting value plus the number of earlier first accesses of that class |
| Identity.SameClassIdsIncrease | cogj/identity.py:20-29 | instances of one class get distinct ids, increasing in order of first access |
| Identity.FirstAccessOrder | cogj/identity.py:25-29 | two instances of one class asked in turn get consecutive ids in the order asked, and asking again repeats the id |
| Identity.IndependentCounters | cogj/identity.py:20-28 | instances of different classes draw from their own counters |
| Identity.AccessAll | cogj/identity.py:22-29 | asking distinct fresh instances in turn hands out exactly the ids `Issue` assigns to their class names |
| RTreeNode.Node.constructor | jupyter/rtree/node.py:31-37 | a new node has the given bounds or `(-inf, -inf, inf, inf)`, the given level or 0, the given children, no cached centre, and is a leaf |
| RTreeNode.Node.Intersects | jupyter/rtree/node.py:39-51 | `intersects` is the four-clause test as written, on the other node's bounds or on a raw tuple |
| RTreeNode.IntersectsNodeOrBounds | jupyter/rtree/node.py:41-45 | a node and its bounds tuple get the same answer |
| RTreeNode.BoxToTheRightIntersects | jupyter/rtree/node.py:46-51 | a box strictly to the right is reported as intersecting |
| RTreeNode.IntersectsAsWrittenCharacterised | jupyter/rtree/node.py:46-51 | on ordered finite boxes the test fails exactly when the boxes overlap on x and are the same horizontal segment |
| RTreeNode.CentreOf | jupyter/rtree/node.py:57-60 | the centre is the midpoint of the bounds on each axis |
| RTreeNode.Node.Centre | jupyter/rtree/node.py:53-61 | the first access computes the midpoint and caches it; later accesses return the cache |
| RTreeNode.CentreAfterBoundsChange | jupyter/rtree/node.py:56-61 | after the bounds change the cached centre is still returned |
| RTreeNode.Node.Search | jupyter/rtree/node.py:63-67 | every node found is below this node and passes the test; a leaf finds only its own children |
| RTreeNode.Hits | jupyter/rtree/node.py:65 | the children passing the test: no others, and all of them |
| RTreeNode.LeafSearchMembers | jupyter/rtree/node.py:65-66 | a leaf's search holds exactly the children that pass the test |
| RTreeNode.NonLeafSearchIncludesChildSearch | jupyter/rtree/node.py:66-67 | a non-leaf's search includes the whole search of each child that passes the test |
| RTreeNode.HitsIsFilter | jupyter/rtree/node.py:65 | the list comprehension is the in-order filter: a subsequence of the children that holds each passing child as often as the children do, and no other node |
| RTreeNode.LeafSearchIsFilter | jupyter/rtree/node.py:65-66 | a leaf's search is its children filtered by the test, in child order, repeats kept |
| RTreeNode.NonLeafSearchOnlyFromChildren | jupyter/rtree/node.py:66-67 | everything a non-leaf finds was found by the search of a child that passes the test |
| RTreeNode.SearchEachSource | jupyter/rtree/node.py:67 | a node in the concatenated searches of some children came from one of those children's searches |
| RTreeNode.SearchEachInOrder | jupyter/rtree/node.py:67 | the concatenated searches follow child order: searching `a + b` is searching `a`, then `b` |
| RTreeNode.ChildlessSearchIsEmpty | jupyter/rtree/node.py:63-67 | a node without children finds nothing |
| RTree.TreeBuilder.Create | jupyter/rtree/tree.py:19-28 | a ValueError exactly when `min_items > max_items / 2`; otherwise both values are stored and there are no nodes |
| RTree.TreeBuilder.CreateDefault | jupyter/rtree/tree.py:19-28 | `TreeBuilder()` with the defaults 4 and 10 always succeeds and stores them |
| RTree.TreeBuilder.Call | jupyter/rtree/tree.py:30-37 | calling the builder stores the nodes |
| RTree.TreeBuilder.Height | jupyter/rtree/tree.py:59-69 | defined exactly for `n >= 1` and `max_items >= 2`, and then the least `h` with `max_items^h >= n` |
| RTree.HeightIsLeast | jupyter/rtree/tree.py:67-69 | any `g` with `max_items^g >= n` is at least the height |
| RTree.SingleItemShape | jupyter/rtree/tree.py:67-84 | one item: height 0 and no nodes |
| RTree.TreeBuilder.NNodes | jupyter/rtree/tree.py:71-84 | fails with the height, or on `min_items == 0` with a positive height; 0 for height 0, otherwise the sum over `k = 1..height` of `ceil(n / min_items^k)` |
| RTree.NodeCountBounds | jupyter/rtree/tree.py:80-84 | with `min_items >= 1`: `height <= n_nodes <= height * n` |
| RTree.TreeBuilder.NSubtrees | jupyter/rtree/tree.py:86-99 | defined with the height, and the floor of the square root of the items per top-level subtree |
| RTree.SubtreesBounded | jupyter/rtree/tree.py:96-99 | for `n >= 2` the number of subtrees is between 1 and `sqrt(max_items)` |
| RTree.TreeBuilder.Topology | jupyter/rtree/tree.py:39-57 | the three numbers, as a tuple or as a dict with keys `height`, `num_nodes`, `num_subtrees` |
| RTree.SortIndex | jupyter/rtree/tree.py:110-114 | `'x'` is 0, `'y'` is 1, an integer is itself, any other string is `int()` of it |
| RTree.SortByKeyCorrect | jupyter/rtree/tree.py:117-120 | sorting by key is a permutation, ascending by key, and keeps the order of equal keys |
| RTree.ArgsortCorrect | jupyter/rtree/tree.py:101-120 | `argsort` permutes the subset (all indices when it is empty) and orders it by the chosen centre coordinate |
| RTree.TreeBuilder.ArgsortCaching | jupyter/rtree/tree.py:101-120 | `argsort` as run: the indices `Argsort` gives before the call; no centre changes its value; on success every keyed node has its centre cached; nodes not keyed are untouched |
| RTree.TreeBuilder.CacheCentres | jupyter/rtree/tree.py:117-120 | the key calls read, and so cache, each keyed node's centre, in order, stopping at the first failing key |
| RTree.TreeBuilder.Keyed | jupyter/rtree/tree.py:117-120 | every index is paired with its key exactly when no key fails |
| RTree.ArgsortStable | jupyter/rtree/tree.py:117-120 | indices sharing a key come out in input order |
| RTree.TreeBuilder.Pack | jupyter/rtree/tree.py:122-132 | a subset that fits in one node is returned unchanged |
| RTree.Tree.constructor | jupyter/rtree/tree.py:149-157 | no root, depth, leaf depth and count 0, `len` 0 |
| RTree.Tree.Root | jupyter/rtree/tree.py:159-166 | the first access creates an empty leaf node without a cached centre and sets both depths to 1; later accesses return the same node; the count is unchanged |
| RTree.Tree.Search | jupyter/rtree/tree.py:179-182 | the root's search; a tree without a root creates it, setting both depths to 1, and finds nothing; otherwise the root and depths stay; the count never changes |
| ChunkSelection.CollectionsOf | flask/api/geo_serverless.py:29-32 | the header's collections, or a KeyError |
| ChunkSelection.BoxesIntersectIffCommonPoint | flask/api/geo_serverless.py:83-87 | two boxes intersect exactly when the closed rectangles share a point, so touching counts |
| ChunkSelection.SelectedCharacterised | flask/api/geo_serverless.py:83-89 | selection fails exactly when a collection lacks a box; otherwise it keeps exactly the collections meeting the query box, in header order |
| ChunkSelection.SelectByBox | flask/api/geo_serverless.py:84-89 | the loop returns the selection |
| ChunkSelection.FindSmallest | flask/api/geo_serverless.py:91-98 | the earliest collection with the least feature count, None for no collections, a KeyError when a count is missing |
| ChunkSelection.RangeOf | flask/api/geo_serverless.py:110-111 | the range starts at `start` and ends `size` later |
| ChunkSelection.ReadFeatureCollections | flask/api/geo_serverless.py:100-116 | succeeds exactly when every collection has a range and its payload has features; then one request per collection, in order, and the features concatenated in order; otherwise the first unreadable collection decides the error |
| ChunkSelection.ReadFeatureCount | flask/api/geo_serverless.py:114 | payloads of `n` features each give `n` features per collection |
| ChunkSelection.BuildAbstractShape | flask/api/geo_serverless.py:43-53 | the abstract starts with the description and ends with the published sentence when there is one |
| ChunkSelection.MetadataOf | flask/api/geo_serverless.py:58-62 | the file name, the header's name or "Unmamed dataset", and the abstract |
| FlaskGeoServerless.GeoServerless.Create | flask/api/geo_serverless.py:10-15 | a GeoServerlessException exactly when there is no URL; otherwise no header is cached |
| FlaskGeoServerless.GeoServerless.ReadHeader | flask/api/geo_serverless.py:20-27 | the cached header becomes the one fetched |
| FlaskGeoServerless.GeoServerless.CachedHeader | flask/api/geo_serverless.py:29-31 | the cached header if there is one, otherwise the fetched one, which is then cached |
| FlaskGeoServerless.GeoServerless.GetCollections | flask/api/geo_serverless.py:29-32 | the cached header's collections |
| FlaskGeoServerless.GeoServerless.GetBbox | flask/api/geo_serverless.py:34-40 | the header's bbox, or a GeoServerlessException when it has none |
| FlaskGeoServerless.GeoServerless.GetMetadata | flask/api/geo_serverless.py:42-64 | the metadata of the cached header |
| FlaskGeoServerless.GeoServerless.GetCollectionsForBbox | flask/api/geo_serverless.py:73-89 | without a box, every collection or only the first in development mode; with one, the selection by box |
| FlaskGeoServerless.GeoServerless.FindSmallestCollection | flask/api/geo_serverless.py:91-98 | the smallest of the cached header's collections |
| FlaskGeoServerless.GeoServerless.ReadFeatureCollections | flask/api/geo_serverless.py:100-116 | the range reads and concatenation above, and the same errors: the first unreadable collection decides a KeyError (after its request) or a GeoServerlessException (before any request for it) |
| FlaskGeoServerless.HeaderReadOnce | flask/api/geo_serverless.py:29-32 | a second question is answered from the first header, whatever the file returns later |
| ZappaGeoServerless.GeoServerless.Create | flask-zappa/app/api/geo_serverless.py:11-16 | as in the Flask copy |
| ZappaGeoServerless.GeoServerless.ReadHeader | flask-zappa/app/api/geo_serverless.py:21-28 | as in the Flask copy |
| ZappaGeoServerless.GeoServerless.CachedHeader | flask-zappa/app/api/geo_serverless.py:30-32 | as in the Flask copy |
| ZappaGeoServerless.GeoServerless.GetCollections | flask-zappa/app/api/geo_serverless.py:30-33 | as in the Flask copy |
| ZappaGeoServerless.GeoServerless.GetBbox | flask-zappa/app/api/geo_serverless.py:35-41 | as in the Flask copy |
| ZappaGeoServerless.GeoServerless.GetMetadata | flask-zappa/app/api/geo_serverless.py:43-65 | as in the Flask copy |
| ZappaGeoServerless.GeoServerless.GetCollectionsForBbox | flask-zappa/app/api/geo_serverless.py:75-91 | without a box as in the Flask copy; with a box a NameError, because this copy never imports `box` |
| ZappaGeoServerless.GeoServerless.FindSmallestCollection | flask-zappa/app/api/geo_serverless.py:93-100 | as in the Flask copy |
| ZappaGeoServerless.GeoServerless.ReadFeatureCollections | flask-zappa/app/api/geo_serverless.py:102-118 | as in the Flask copy, success and error cases alike |
| ZappaGeoServerless.HeaderReadOnce | flask-zappa/app/api/geo_serverless.py:30-33 | as in the Flask copy |
| GmlCoords.FlattenSeqAppend | flask-zappa/app/api/gml.py:216-221 | flattening is element by element |
| GmlCoords.FlattenRing | flask-zappa/app/api/gml.py:216-221 | a ring of positions flattens to twice as many numbers, each position's x and y in turn |
| GmlCoords.GrouperShape | flask-zappa/app/api/gml.py:113-116 | every group has `n` items, fewer than `n` fill values are added, and the groups concatenate to the input followed by the fill |
| GmlCoords.GrouperExample | flask-zappa/app/api/gml.py:114 | `grouper(3, 'ABCDEFG', 'x')` gives ABC DEF Gxx |
| GmlCoords.BoundingBoxCases | flask-zappa/app/api/gml.py:138-146 | no numbers: the unpack ValueError; one: its value as both x bounds and None for y; an odd count of 3 or more: the None comparison TypeError; an even count: every point lies in the box and each side is attained |
| GmlCoords.UnionBoxEmpty | flask-zappa/app/api/gml.py:40-42 | an empty page has no corner points to unpack |
| GmlCoords.UnionBoxMissingY | flask-zappa/app/api/gml.py:64-66 | a box without y bounds makes the union fail comparing None |
| GmlCoords.UnionBoxHolds | flask-zappa/app/api/gml.py:40-42 | the union of complete boxes is complete, contains every box, and each of its sides is the x (or y) of some box's corner point |
| GmlCoords.UnionBoxTight | flask-zappa/app/api/gml.py:40-42 | for boxes whose sides are in order, each side of the union is that same side of some box: the least box holding them all |
| GmlCoords.CompleteBoxIsOrdered | flask-zappa/app/api/gml.py:138-146 | a bounding box with all four sides has `minx <= maxx` and `miny <= maxy` |
| GmlCoords.PosListSwaps | flask-zappa/app/api/gml.py:256-258 | for an even count the position list is the coordinates with each (x, y) swapped; for an odd count the last pair is padded with None and swapped |
| GmlCoords.ReverseEachSwapsRing | flask-zappa/app/api/gml.py:311-312 | reversing each position of a ring and flattening gives the ring's coordinates with each pair swapped |
| GmlCoords.ReverseEachInvolution | flask-zappa/app/api/gml.py:311 | reversing each position twice restores the ring |
| Gml.FirstIdIndex | flask-zappa/app/api/gml.py:69-72 | the index of the first property whose lowercased name is an id name |
| Gml.FeatureIdFirstMatch | flask-zappa/app/api/gml.py:68-73 | the id is the value of the first property named `fid`, `gid`, `oid`, `objectid` or `id` ignoring case; none is a GeoServerlessException, and missing properties an AttributeError |
| Gml.Attributes | flask-zappa/app/api/gml.py:99-108 | one attribute per property, in order, named `test:<key>`, with `""` for None |
| Gml.RunPolygonsSwaps | flask-zappa/app/api/gml.py:294-334 | on well-formed polygons every surface member holds its exterior's and each interior's coordinates with every (x, y) pair swapped, exterior first, one interior per further ring |
| Gml.RunPolygonsTwice | flask-zappa/app/api/gml.py:311 | a second conversion of the rewritten polygons restores the input coordinates and writes the original exteriors |
| Gml.MultiPolygonRunTwice | flask-zappa/app/api/gml.py:288-341 | the same for a whole MultiPolygon geometry |
| Gml.FeatureStepConverts | flask-zappa/app/api/gml.py:20-40 | a converted feature's element has the type name as tag, `<type>.<id>` as `gml:id`, its box y-first as envelope, its attributes, and the Polygon or MultiPolygon geometry; a Polygon is left unchanged |
| Gml.EmptyPageFails | flask-zappa/app/api/gml.py:40-42 | converting no features fails on the unpack |
| Gml.ConvertOutcomePerFeature | flask-zappa/app/api/gml.py:20-43 | a converted page has one element per feature, in order, each that feature's own element; every feature has a bounding box; when all of them are complete, the page box holds each of them and each of its sides is that same side of some feature's box |
| Gml.SliceEnd | flask-zappa/app/api/gml.py:20 | the end of `features[:limit]` lies within the list |
| Gml.PolygonGeometry.constructor | flask-zappa/app/api/gml.py:150-154 | no cached coordinates and no cached box |
| Gml.PolygonGeometry.GetCoordinatePairs | flask-zappa/app/api/gml.py:187-191 | the flattened coordinates, cached after the first call |
| Gml.PolygonGeometry.GetBoundingBox | flask-zappa/app/api/gml.py:193-199 | the bounding box of the flattened coordinates, cached after the first successful call |
| Gml.GeoJSON2GML.constructor | flask-zappa/app/api/gml.py:7-13 | the type name and features are stored, and there is no features box yet |
| Gml.GeoJSON2GML.GetFeaturesBbox | flask-zappa/app/api/gml.py:45-48 | the features box once set, a GeoServerlessException before |
| Gml.GeoJSON2GML.WriteMultiPolygon | flask-zappa/app/api/gml.py:288-341 | the loop writes the surface members and rewrites the feature's exterior rings as the run does; other features are unchanged |
| Gml.GeoJSON2GML.ConvertFeature | flask-zappa/app/api/gml.py:20-40 | one turn of the loop: the feature's step, with its coordinates as left |
| Gml.GeoJSON2GML.ConvertPrefix | flask-zappa/app/api/gml.py:20-40 | the loop over the first `end` features, up to the first error |
| Gml.GeoJSON2GML.Convert | flask-zappa/app/api/gml.py:15-43 | `convert(limit)` converts `features[:limit]`: the elements and the union box, or the first error with the box unchanged; the handled features are left as their conversion leaves them and the rest untouched |
| WfsServer.MakeWfsSafeLayername | flask-zappa/app/api/wfsserver.py:18-22 | the name lowercased character by character, nothing else |
| WfsServer.LayernameStable | flask-zappa/app/api/wfsserver.py:22 | a safe name is its own safe name, and characters other than capitals are kept |
| WfsServer.PageQuery | flask-zappa/app/api/wfsserver.py:87-91 | the query gains `STARTINDEX`; `COUNT` is kept when present and the page size otherwise; other keys are unchanged |
| WfsServer.PreviousCanBeNegative | flask-zappa/app/api/wfsserver.py:103 | the previous page's `STARTINDEX` is negative when the count exceeds the start |
| WfsServer.NextThenPrevious | flask-zappa/app/api/wfsserver.py:87-105 | on query maps: the next link then that page's previous link moves `STARTINDEX` forward by the features on the page and back by the count, so it is back at the start exactly when the page was full; the other keys stay, with `COUNT` as in the next link |
| WfsServer.CapabilitiesCornersYFirst | flask-zappa/app/api/wfsserver.py:35-36 | an IndexError for fewer than four numbers; otherwise the corners are `bbox[1] bbox[0]` and `bbox[3] bbox[2]` |
| WfsServer.PagedResponse | flask-zappa/app/api/wfsserver.py:113-137 | a page is served exactly when its conversion succeeds; `numberMatched` is the total, `numberReturned` the members converted, the envelope y-first; next exactly when start plus members is below the total, at start plus the features given; previous exactly when start is positive, at start minus the count |
| WfsServer.HitsResponse | flask-zappa/app/api/wfsserver.py:139-143 | in hits mode `numberMatched` is the total, `numberReturned` 0, and there are no box, members or links |
| WfsServer.EmptyPagedResponseFails | flask-zappa/app/api/wfsserver.py:116-123 | a page of no features cannot be served outside hits mode |
| WfsServer.MaxFeaturesPerPageRead | flask-zappa/app/api/wfsserver.py:16 | a missing variable is the TypeError of `int(None)`; a written integer is read back |
| WfsServer.WFSServer.GetFeature | flask-zappa/app/api/wfsserver.py:71-145 | `get_feature` gives the response described above, with the server's page size |
| WfsServer.NewServer | flask-zappa/app/api/wfsserver.py:13-16 | the server's page size is the environment's, or the reading error |
| Aws.ProfileMatchCharacterised | flask/api/aws.py:27-32 | a line opens a profile exactly when some `[` is followed by a non-bracket; the name runs from the leftmost such place to the next bracket or the end |
| Aws.ProfileMatchExample | flask/api/aws.py:27 | `[default]` names the profile `default` |
| Aws.ParseProfiles | flask/api/aws.py:30-42 | the loop gives the profiles, or the error, of running the line parser over the file |
| Aws.ParseFromAppend | flask/api/aws.py:31-42 | parsing two runs of lines is parsing the first and continuing over the second |
| Aws.MalformedBeforeFirstProfile | flask/api/aws.py:36-37 | a line before any profile, blank or not, is the Malformed ValueError |
| Aws.BlankLinesSkipped | flask/api/aws.py:38-39 | once a profile is open a blank line changes nothing |
| Aws.HeaderStartsProfileAfresh | flask/api/aws.py:33-42 | a header followed by setting lines gives that profile exactly those settings, later ones winning, whatever it held before; other profiles are unchanged |
| Aws.BadSettingFails | flask/api/aws.py:41 | a line that does not split into exactly two parts at `=` is a ValueError |
| Aws.ProfileName | flask/api/aws.py:45 | the profile asked for, or `default` when none or empty |
| Aws.GetCredentials | flask/api/aws.py:15-54 | the access and secret keys of the profile exactly when the profile and both keys exist; otherwise the unknown profile ValueError, or the parse error |
| ApiUtils.GetRequestArgCaseiFirstMatch | cogj/flask/api/utils.py:5-9 | the value of the first argument whose key equals the one asked ignoring case; None exactly when no key does |
| ApiUtils.GetRequestArgCaseiIgnoresCase | cogj/flask/api/utils.py:7 | asking for a key or its lowercase gives the same answer |
| ApiUtils.CaseiSameKey | cogj/flask/api/utils.py:7 | keys that differ only in case get the same answer |
| ApiUtils.GetEnv | cogj/flask/api/utils.py:12-16 | the stored value when the key is present, the default otherwise |
| ApiUtils.IsDev | cogj/flask/api/utils.py:19-20 | true exactly when `ENVIRONMENT` is `development` |
| ApiUtils.MergeDicts | cogj/flask/api/utils.py:23-31 | the keys of all the dictionaries, each value from the last one holding the key; the arguments are values and stay as they were |

## Left out

- `check_bounds` is not part of this model: node bounds and query bounds are taken as given.
- The recursive split of `TreeBuilder.pack` and `Tree.construct` are unfinished in the source. `Pack` fails on a subset larger than one node.
- RTree.TreeBuilder.Height, NNodes and NSubtrees: integer meaning of `ceil(log)`, `ceil(n / m)` and `floor(sqrt)`, without float rounding at exact powers.
- RTree.ArgsortCorrect: keys that are NaN are excluded, since Python's `sorted` has no specified order for them. Nodes still holding the default unbounded bounds have NaN centres, so the permutation half is not stated for them either.
- RTree.TreeBuilder.ArgsortCaching: on a failing key only the nodes named before it can have been cached; which ones exactly is stated only for a successful sort.
- The `IdentityMixin` base of `Node` is not modelled with the node; identities are modelled on their own.
- The `parent` of a node is stored and never read, and it is kept out of the node's footprint.
- Node bounds are floats with infinities and NaN but without rounding: `(a + b) / 2` is exact for finite values.
- HTTP requests and JSON decoding are parameters: `remote` stands for the header request and `fetch` for a range read.
- The query bbox string (`"a,b,c,d"` parsed to floats) is taken already parsed.
- `get_filename_from_url` (URL path parsing) is a parameter of `GetMetadata`.
- `GetMetadata`: the `except Exception` wrapper is not modelled, because nothing inside it can fail once the header is a record with optional fields.
- The header's fields are typed, so a `features` count that is not a number is not represented.
- ChunkSelection.ReadFeatureCollections: a `fetch` that fails is modelled as a payload without features (a KeyError); network errors are not distinguished.
- Geometry is opaque in `Features`: a shape is its type name and coordinates, and `Feature.json` and `mapping` (serialisation) are left out.
- `FeatureCollection.geometries` indexes a `Feature` with `['geometry']`, which `Feature` does not support. It is left out.
- The schema is an abstract predicate on properties with an extra-keys flag; voluptuous's own rules are not modelled.
- Filter.FeatureFilter.SetPropertyFilter: an iterable of keys is taken as a list that can be read again. The source rebuilds `set(keep_properties)` for every feature, so a generator gives its keys to the first feature only and an empty set to the rest; that is not modelled.
- Filter.FeatureFilter: `chunk` is a constant. The source decides at construction whether to chunk, but its grouping step reads `self.chunk` when features pass, so reassigning `chunk` later changes the chunk size; that is not modelled. `limit` is fixed at construction in the source as well.
- Generator laziness is not modelled: each pipeline is run to the end, and an error ends the whole run.
- `PyText` covers ASCII only: `lower`, `strip` and `int()` ignore Unicode case, non-ASCII whitespace (such as `\x85` and `\xa0`) and digit separators.
- Float formatting (`str(float)`) in GML strings is left out: positions, envelopes and corners are numbers, not text.
- XML building and templates (BeautifulSoup, `get_capabilities`, `describe_feature_type`, `create_feature_element`, `soup.find`) are left out. Elements are records of what would be written.
- Gml.FeatureStepConverts: the geometry error's message omits the `str(feature)[:100]` suffix.
- A feature without a `geometry` or `type` key (a KeyError) is not represented.
- Properties are taken to have distinct keys, as a Python dict's do.
- `GmlCoords`: only the first of Python's comparison error messages is used (`NoneComparison`); other operand orders give other messages.
- GmlCoords.PosListSwaps: the space-joined text of the position list is left out.
- WfsServer.PagedResponse: `result_type_hits` is a boolean. A non-boolean value, which the source treats as hits unless `is False`, is not modelled.
- WfsServer.PagedResponse: `numberReturned` assumes the template's `featureMembers` element starts empty.
- WfsServer.NextThenPrevious: the next link is written with `urlencode` without `doseq`, so a list value from `parse_qs` (a requested `COUNT`, say) becomes the text of the list; the lemma is about the query maps before encoding, where the values are kept as they are.
- JSON arrays do not distinguish Python lists from tuples, which `==` tells apart; in `__geo_interface__` dictionaries both sides build the same kind.
- URL handling (`urlsplit`, `parse_qs`, `urlencode` with or without `doseq`, `urlunsplit`) and `make_dict_keys_uppercase` are left out. The query is a map from upper-case keys, and only `STARTINDEX` and `COUNT` are modelled.
- The `api/utils.py` modules of the Flask and Zappa APIs are not part of this model. Their `get_env` (read by `flask-zappa/app/api/wfsserver.py:6`) and `is_dev` (imported by `flask/api/geo_serverless.py:4` and `flask-zappa/app/api/geo_serverless.py:7`) are taken to be cogj's `ApiUtils.GetEnv` and `ApiUtils.IsDev`.
- Aws.GetCredentials: the error message omits the list of available profiles.
- Reading the credentials file (`open`, `expanduser`) and logging are left out: the file's lines are a parameter.
- Reprojection (`cogj/reproject.py`), the CLI, the Flask, Zappa and Lambda applications, logging and the build scripts are outside the core.
