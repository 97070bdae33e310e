# cbl-workflow in Dafny

A Dafny model of the covered-buildings-list workflow of SEED-platform/cbl-workflow, with proofs about it.
The workflow starts from geocoded addresses. It finds the zoom-9 quadkey of each point and keeps a local
cache of the Microsoft global building footprint tiles up to date. It matches each point to a footprint:
an intersecting one if there is one, otherwise the closest. It then derives the footprint's UBID
(Unique Building Identifier). The model also covers the OpenStreetMap helpers (Overpass lookups,
node-coordinate polygons, the rewriting of collected results) and the small list and GeoJSON utilities.

Module layout, one module per source file:

- `Chunking`, `Flattening`, `GeoJsonHelpers`: utils/chunk.py, utils/flatten.py, utils/geojson_helpers.py.
- `GeocodeAddresses`: utils/geocode_addresses.py. The MapQuest batch request is the parameter `post`.
- `Ubid`: utils/ubid.py.
  - The buildingid codec (encode and decode) and shapely's `bounds` and `centroid` are parameters.
  - `GeoDataFrame` is a class whose column map the methods update in place, as pandas does.
- `DatasetLinks`, `QuadkeyFiles`: utils/update_dataset_links.py and utils/update_quadkeys.py.
  - The data directory is the class `LocalStorage.LocalStore`, a map from path to bytes plus a log of downloads.
  - HTTP HEAD and GET answers are the parameter `remote`.
  - MD5 with base64 is `fingerprint`; the CSV reader is `parseIndex`.
- `Quadkey`: the quadkey of a tile at zoom 9, following the Bing Maps Tile System, then read as a decimal
  integer as `int()` does. `Decimal` models `str(int)` and `int(str)`.
- `Pipeline`: main.py, lines 57-105.
  - The Mercator projection is `tileOf`, the GeoJSON tile reader `readTile`, the UBID decoder `decodeUbid`.
  - Spatial predicates and distances live in `Geometry.GeometryOps`.
- `OpenStreetMap`: the selected functions of utils/open_street_map.py. Each Overpass answer is a
  parameter (`response`, or `query` for the per-node query).
- `Wrappers` (Option, Result), `Geometry` (points, polygons, bounds), `Slicing` (Python slices that clamp).

Loops of the source are `method`s proved against specification functions. Those functions are left
folds over the input, and the lemmas are stated about them. Exceptions become `Err` values, and the
first error ends a loop, as the raise does.

## Model

| member | source | states |
|---|---|---|
| Chunking.ChunkCount | utils/chunk.py:9 | the number of chunks is the ceiling of len / size, and zero only for the empty list |
| Chunking.ChunkEmpty | utils/chunk.py:8-9 | chunking the empty list gives no chunks |
| Chunking.ChunkShape | utils/chunk.py:8-9 | every chunk is non-empty and at most `size` long; every chunk but the last is exactly `size` long |
| Chunking.ChunkLength | utils/chunk.py:8-9 | the chunk list has ceiling(len / size) entries and is empty exactly when the input is |
| Chunking.ChunkSingle | utils/chunk.py:8-9 | a non-empty list no longer than `size` is one chunk, itself |
| Chunking.ChunkOfRest | utils/chunk.py:9 | chunk i of the list without its first `size` items is chunk i + 1 of the list |
| Chunking.ChunkCons | utils/chunk.py:8-9 | a list longer than `size` chunks into its first `size` items followed by the chunks of the rest |
| Chunking.FlattenChunk | utils/chunk.py:8-9 | concatenating the chunks gives back the input list, for every positive chunk size |
| Flattening.FlattenLength | utils/flatten.py:9-10 | the flattened list is as long as the sublists together |
| Flattening.FlattenConcat | utils/flatten.py:9-10 | flattening distributes over concatenation of the outer list |
| Flattening.FlattenSingleton | utils/flatten.py:9-10 | flattening a one-element list gives the element back |
| Flattening.FlattenSnoc | utils/flatten.py:9-10 | appending a sublist appends its items |
| Flattening.FlattenIndex | utils/flatten.py:10 | item j of sublist i is at position (length of the sublists before i) + j of the output |
| Slicing.Slice | utils/chunk.py:9 | a Python slice: its length is clamped to the list, and item j is item lo + j of the list |
| Slicing.SliceOfSuffix | utils/chunk.py:9 | slicing a suffix equals slicing the whole list further along |
| GeoJsonHelpers.PolygonFeatures | utils/geojson_helpers.py:10 | the kept features are all Polygons, and there are no more of them than input features |
| GeoJsonHelpers.CoordinateLists | utils/geojson_helpers.py:11 | one coordinates list per feature, the feature's own |
| GeoJsonHelpers.PolygonRingsConcat | utils/geojson_helpers.py:9-11 | the extracted coordinates of two feature lists concatenate |
| GeoJsonHelpers.ExtractCoordinates | utils/geojson_helpers.py:7-12 | the loop returns the coordinates of the Polygon features in feature order |
| GeoJsonHelpers.RingsAreFlattenedPolygonCoordinates | utils/geojson_helpers.py:7-12 | the result is the flattening of the Polygon features' coordinate lists |
| GeoJsonHelpers.NonPolygonsContributeNothing | utils/geojson_helpers.py:10 | features without a Polygon geometry give an empty result |
| GeoJsonHelpers.ExtractLength | utils/geojson_helpers.py:7-12 | the result length is the total ring count of the Polygon features |
| GeoJsonHelpers.FilterThenExtract | utils/geojson_helpers.py:10 | dropping the non-Polygon features first changes nothing |
| Decimal.DigitChar | utils/update_quadkeys.py:23 | a single digit's character is a digit of that value |
| Decimal.NatToString | utils/update_quadkeys.py:23 | `str(n)` of a natural number is all digits, with no leading zero |
| Decimal.IntToString | utils/update_quadkeys.py:23 | `str(i)` is non-empty, and all digits exactly when i is not negative |
| Decimal.ParseInt | main.py:60 | `int(s)` of a string of digits is its decimal value |
| Decimal.ParseNatToString | main.py:60 | reading back the digits str() wrote gives the number |
| Decimal.ParseIntToString | utils/open_street_map.py:371 | `int(str(i)) == i` for every integer |
| Decimal.IntToStringInjective | utils/update_quadkeys.py:23 | distinct integers get distinct texts, so distinct quadkeys get distinct file names |
| Decimal.ParseDigitsInjective | main.py:60 | two digit strings of the same length and value are equal |
| Quadkey.QuadkeyString | main.py:60 | the quadkey string of a tile has one character per zoom level |
| Quadkey.QuadkeyStringAt | main.py:60 | character j is the digit of level zoom - 1 - j, most significant level first |
| Quadkey.QuadkeyStringDigits | main.py:60 | the quadkey string is all decimal digits, so `int()` accepts it |
| Quadkey.QuadkeyDigits | main.py:60 | every quadkey character is between '0' and '3' |
| Quadkey.BitsDetermine | main.py:60 | a number below 2^z is determined by its low z bits |
| Quadkey.QuadkeyStringInjective | main.py:59-60 | distinct valid tiles at one zoom have distinct quadkey strings |
| Quadkey.QuadkeyInjective | main.py:59-60 | distinct zoom-9 tiles have distinct integer quadkeys, even though `int()` drops leading zeros |
| GeocodeAddresses.LowerAscii | utils/geocode_addresses.py:47 | lower-casing keeps the length and maps A-Z to a-z, leaving other characters alone |
| GeocodeAddresses.ProcessResult | utils/geocode_addresses.py:17-58 | the method's record is the one the specification function Processed gives |
| GeocodeAddresses.AcceptableQualityChars | utils/geocode_addresses.py:32-36 | a quality code is accepted iff it starts with P1 or L1 and positions 2-4 hold no C and no X |
| GeocodeAddresses.AmbiguousResult | utils/geocode_addresses.py:29-30 | a result without exactly one location gives exactly {"quality": "Ambiguous"} |
| GeocodeAddresses.RejectedResult | utils/geocode_addresses.py:57-58 | a rejected code gives a record whose only key is quality, holding that code |
| GeocodeAddresses.AdminAreaKeys | utils/geocode_addresses.py:43-47 | the admin keys are the lower-cased types present for i = 1..n |
| GeocodeAddresses.AdminAreaLaterWins | utils/geocode_addresses.py:44-47 | when types collide after lower-casing, the value of the largest i wins |
| GeocodeAddresses.AcceptedResult | utils/geocode_addresses.py:49-56 | an accepted code gives the six base keys merged with the admin areas; an admin key overrides a base key of the same name |
| GeocodeAddresses.BaseRecordKeys | utils/geocode_addresses.py:49-56 | the base record has exactly quality, address, longitude, latitude, postal_code and side_of_street |
| GeocodeAddresses.ChunkResults | utils/geocode_addresses.py:78-91 | status 401 is the API-key error; 403 without parsable results is the API-key error; otherwise the results, or the original error |
| GeocodeAddresses.Geocode | utils/geocode_addresses.py:61-93 | one request per chunk of 100; it fails exactly when the collected chunks fail, with that error; otherwise each result is processed, in order |
| GeocodeAddresses.CollectErrorPersists | utils/geocode_addresses.py:66-91 | once a prefix of the chunks fails, the batch fails with the same error |
| GeocodeAddresses.CollectResultsInChunkOrder | utils/geocode_addresses.py:84 | a successful batch is each chunk's results concatenated in chunk order |
| GeocodeAddresses.CollectResultsFirstError | utils/geocode_addresses.py:66-91 | the batch fails with the error of the first failing chunk |
| Ubid.EncodeArguments | utils/ubid.py:14-16 | shapely's (minx, miny, maxx, maxy) and centroid (x, y) are passed to the codec as latitude/longitude lo, hi and centre |
| Ubid.EncodeUbid | utils/ubid.py:13-17 | the UBID is the codec's encoding of those arguments, with code length 10 by default |
| Ubid.EncodeArgumentsKeepBox | utils/ubid.py:14-16 | the reordering keeps low with low and high with high, so the centre lies in the box handed over |
| Ubid.BoundingBox | utils/ubid.py:21-31 | a closed five-point ring: upper-left, upper-right, lower-right, lower-left of the decoded cell |
| Ubid.Centroid | utils/ubid.py:35-37 | the decoded centroid, longitude as x and latitude as y |
| Ubid.BoundingBoxEnclosesCell | utils/ubid.py:23-31 | the ring runs clockwise and its shoelace area is exactly the decoded cell's |
| Ubid.BoundingBoxVerticesInCell | utils/ubid.py:23-31 | every vertex of the ring lies in the decoded cell |
| Ubid.CentroidInsideBoundingBox | utils/ubid.py:21-37 | centroid and bounding_box share the axis convention: the centroid lies between the ring's lower-left and upper-right corners |
| Ubid.Nulls | utils/ubid.py:61 | a new column of None, one per row |
| Ubid.AddedColumns | utils/ubid.py:60-65 | the columns created are the wanted ones not yet present, each once |
| Ubid.WhereFootprint | utils/ubid.py:68 | a `.loc` assignment writes the rows with a footprint and keeps the others |
| Ubid.WithColumns | utils/ubid.py:60-65 | after creation every wanted column exists, old columns are unchanged and new ones are all None |
| Ubid.UbidValues | utils/ubid.py:68 | each footprint row's value is encode_ubid of its polygon |
| Ubid.CentroidValues | utils/ubid.py:71 | each footprint row's value is the centroid of its UBID |
| Ubid.BoundingBoxValues | utils/ubid.py:74 | each footprint row's value is the bounding box of its UBID |
| Ubid.WithColumnsPrevious | utils/ubid.py:60-65 | after creation each cell holds its previous value, None for a new column |
| Ubid.FilledCellsUbid | utils/ubid.py:68 | the ubid column holds the UBIDs on footprint rows and its old cells elsewhere |
| Ubid.FilledCellsCentroid | utils/ubid.py:70-71 | when asked for, ubid_centroid holds on footprint rows the centroid of that row's new UBID |
| Ubid.FilledCellsBoundingBox | utils/ubid.py:73-74 | when asked for, ubid_bbox holds on footprint rows the bounding box of that row's new UBID |
| Ubid.FilledCellsFrame | utils/ubid.py:67-74 | the assignments touch only ubid, ubid_centroid and ubid_bbox, and keep every column's length |
| Ubid.CellsWithUbidFrame | utils/ubid.py:40-76 | the result has the old columns plus ubid and the extra ones; lengths are kept; unfilled columns are unchanged or None |
| Ubid.CellsWithUbidIds | utils/ubid.py:57-68 | each footprint row gets its polygon's UBID; other rows keep their old value, None when the column is new |
| Ubid.CellsWithUbidCentroids | utils/ubid.py:70-71 | with ubid_centroid asked for, footprint rows get their UBID's centroid and other rows keep their value |
| Ubid.CellsWithUbidBoxes | utils/ubid.py:73-74 | with ubid_bbox asked for, footprint rows get their UBID's bounding box and other rows keep their value |
| Ubid.GeoDataFrame.AddColumn | utils/ubid.py:61 | `gdf[name] = None` appends the column, all None, and keeps the frame consistent |
| Ubid.GeoDataFrame.CreateColumns | utils/ubid.py:60-65 | the loop appends exactly the missing columns, in order, and the cells become WithColumns |
| Ubid.GeoDataFrame.SetWhereFootprint | utils/ubid.py:68 | only the named column changes, and it becomes WhereFootprint |
| Ubid.GeoDataFrame.FillUbidColumns | utils/ubid.py:67-74 | the three assignments leave the cells FilledCells describes |
| Ubid.GeoDataFrame.AddUbid | utils/ubid.py:40-76 | fails, changing nothing, exactly when the footprint column is absent (KeyError); otherwise appends the missing columns and leaves CellsWithUbid |
| LocalStorage.LocalStore.Download | utils/update_quadkeys.py:37-39 | the file at the path becomes the GET body, and the URL is logged |
| DatasetLinks.RefreshedLinks | utils/update_dataset_links.py:25-33 | the index file is replaced by the GET body when it is missing or stale, and left as it was otherwise |
| DatasetLinks.UpdateDatasetLinks | utils/update_dataset_links.py:16-33 | the store ends as RefreshedLinks says; a download is logged exactly when one was needed |
| DatasetLinks.RefreshedLinksEffect | utils/update_dataset_links.py:23-33 | afterwards the index file exists, holds the GET body when downloaded, and no other file changes |
| DatasetLinks.RefreshLinksTwice | utils/update_dataset_links.py:26-29 | against a remote whose Content-MD5 matches its body, a second refresh downloads nothing |
| QuadkeyFiles.LookupUrl | utils/update_quadkeys.py:24-30 | the lookup errors are just the two ValueErrors, multiple rows and not found |
| QuadkeyFiles.MatchingRowsMembers | utils/update_quadkeys.py:24 | the filtered rows are exactly the index rows with the quadkey |
| QuadkeyFiles.NoMatchingRows | utils/update_quadkeys.py:24 | no row is filtered iff no index row carries the quadkey |
| QuadkeyFiles.SeveralMatchingRows | utils/update_quadkeys.py:24-28 | two or more rows are filtered iff two distinct index rows carry the quadkey |
| QuadkeyFiles.LookupUrlCases | utils/update_quadkeys.py:24-30 | not found iff no row; multiple iff two rows; otherwise the Url of a row with the quadkey |
| QuadkeyFiles.RefreshTile | utils/update_quadkeys.py:22-39 | a lookup error is returned as is; otherwise the tile is downloaded exactly when missing or of another size |
| QuadkeyFiles.RefreshQuadkey | utils/update_quadkeys.py:22-39 | on error the store is unchanged; otherwise the store becomes the state RefreshTile gives |
| QuadkeyFiles.UpdateQuadkeys | utils/update_quadkeys.py:14-39 | without the index file the read fails and nothing changes; otherwise the outcome and state are the fold RefreshTiles |
| QuadkeyFiles.RefreshTilesErrorPersists | utils/update_quadkeys.py:21-30 | once a prefix fails, the run ends with that error and that state |
| QuadkeyFiles.TileFileInjective | utils/update_quadkeys.py:23 | distinct quadkeys are cached under distinct file names |
| QuadkeyFiles.RefreshTilesFailure | utils/update_quadkeys.py:21-30 | a failed run stops at the first quadkey whose lookup fails, in the state its predecessors left |
| QuadkeyFiles.RefreshTilesFrame | utils/update_quadkeys.py:21-39 | a run writes no file but those of its quadkeys and only appends to the download log |
| QuadkeyFiles.RefreshTilesCachesAll | utils/update_quadkeys.py:21-39 | a successful run leaves a file for every quadkey and removes none |
| QuadkeyFiles.RefreshTileCaches | utils/update_quadkeys.py:32-39 | one successful step leaves its tile file and removes none |
| QuadkeyFiles.RefreshTilesMakesCurrent | utils/update_quadkeys.py:32-39 | against a remote whose bodies have the announced length, a successful run leaves every tile of the announced size |
| QuadkeyFiles.CurrentTilesNotDownloaded | utils/update_quadkeys.py:32-35 | when every tile is current, a run downloads nothing and changes nothing |
| QuadkeyFiles.RefreshTilesIdempotent | utils/update_quadkeys.py:14-39 | a second run right after a successful one downloads nothing |
| Pipeline.DatumOf | main.py:59 | a record yields a datum exactly when its longitude and latitude are numbers, and the datum carries them |
| Pipeline.AssignQuadkeys | main.py:57-62 | succeeds iff every record has coordinates, or names the first that lacks them; each datum gets the quadkey of its tile, and the set holds exactly those quadkeys |
| Pipeline.ClosestExists | main.py:91 | a non-empty tile has a footprint at minimum distance |
| Pipeline.MatchFootprint | main.py:86-92 | no choice iff the tile is empty; otherwise an intersecting footprint if any intersects, else one at minimum distance |
| Pipeline.NormalizeHeight | main.py:94 | a height of -1 becomes None, any other height is kept |
| Pipeline.MatchedDatum | main.py:88-97 | the datum gains the match kind, the footprint's geometry, the normalized height and encode_ubid of the geometry |
| Pipeline.LoadTile | main.py:73-81 | a tile is read from its file once and cached; it is missing exactly when the file is; a cached tile is returned without a new read, an uncached one is read and logged once |
| Pipeline.MatchData | main.py:72-97 | succeeds iff every datum's tile exists and is not empty, else fails at the first that is not; each tile is loaded once, in the order the datum quadkeys first occur; each datum is matched by the rule of lines 86-97 |
| Pipeline.UbidRowsLayout | main.py:105 | the UBID output has 2n rows: row 2i is datum i with its decoded UBID as geometry, row 2i+1 is datum i |
| Pipeline.ListOf | main.py:68 | `list(quadkeys)` holds each element of the set exactly once |
| Pipeline.RefreshCache | main.py:65-68 | the store ends as the dataset-links refresh followed by update_quadkeys would leave it; on success every quadkey's tile file exists |
| Pipeline.MatchCachedTiles | main.py:72-105 | with every tile file cached, fails only for an empty tile; otherwise each datum is matched from its tile and the UBID rows follow |
| Pipeline.RunPipeline | main.py:57-105 | fails with missing coordinates exactly when some record lacks them, and then writes no file; never finds a tile file missing; on success each input record is matched, in order, from its tile |
| OpenStreetMap.FirstWithId | utils/open_street_map.py:38-42 | the position of the first element with an id, None iff there is none |
| OpenStreetMap.GetBuildingIdFromOsmId | utils/open_street_map.py:20-47 | a non-200 status gives the retrieval message; otherwise the first id, or the not-found message |
| OpenStreetMap.FindNearestBuilding | utils/open_street_map.py:195-234 | None on a failed request or when no element is a way tagged yes or retail; otherwise the first such element |
| OpenStreetMap.NodeLists | utils/open_street_map.py:102-104 | each element's node list, empty when it has none |
| OpenStreetMap.DownloadBuildingAndNodesById | utils/open_street_map.py:72-106 | None iff the status is not 200; otherwise the answer and the node ids of all elements, in order |
| OpenStreetMap.NodesInElementOrder | utils/open_street_map.py:101-104 | node j of element i comes after the nodes of the elements before it |
| OpenStreetMap.NodesCount | utils/open_street_map.py:101-104 | the number of node ids is the sum of the elements' node counts |
| OpenStreetMap.Keys | utils/open_street_map.py:151 | the dict's keys in insertion order |
| OpenStreetMap.StoreKeys | utils/open_street_map.py:146 | dict assignment keeps an existing key's position and appends a new key |
| OpenStreetMap.StoreValues | utils/open_street_map.py:146 | assignment leaves other keys' entries alone, and the key holds the new value |
| OpenStreetMap.StoreDistinct | utils/open_street_map.py:146 | assignment keeps the keys distinct |
| OpenStreetMap.StoreTwice | utils/open_street_map.py:146 | a second assignment to a key overrides the first |
| OpenStreetMap.LastFix | utils/open_street_map.py:134-149 | the last element that is a complete node inside the WGS84 ranges gives the surviving (lat, lon); None iff there is none |
| OpenStreetMap.NodeEntrySnoc | utils/open_street_map.py:134-149 | one more element updates the dict exactly when it is accepted |
| OpenStreetMap.Vertices | utils/open_street_map.py:151 | one (lon, lat) vertex per dict entry, in dict order |
| OpenStreetMap.NodeCoordinates | utils/open_street_map.py:109-155 | a polygon is returned only with at least three vertices |
| OpenStreetMap.GetNodeCoordinates | utils/open_street_map.py:109-155 | the method's result is the one NodeCoordinates specifies |
| OpenStreetMap.StoreNodeFixes | utils/open_street_map.py:134-149 | the inner loop leaves the dict NodeEntry specifies |
| OpenStreetMap.CollectFailurePersists | utils/open_street_map.py:127-129 | once a query fails, the whole collection fails |
| OpenStreetMap.CollectFailsOnError | utils/open_street_map.py:114-129 | the collection fails iff some node's query fails |
| OpenStreetMap.DedupMembers | utils/open_street_map.py:146 | first-occurrence dedup keeps every id once, and nothing else |
| OpenStreetMap.WithFix | utils/open_street_map.py:134-149 | the queried ids whose answer holds an accepted fix |
| OpenStreetMap.CollectedEntries | utils/open_street_map.py:111-149 | with all queries answered, the keys are the ids with a fix, in first-query order, each holding its last accepted fix |
| OpenStreetMap.NodeCoordinatesInRange | utils/open_street_map.py:145-151 | every vertex of the polygon lies in the WGS84 ranges |
| OpenStreetMap.NodeCoordinatesVertexCount | utils/open_street_map.py:151-155 | with every query answered, None iff fewer than three distinct ids have a fix; otherwise one vertex per such id |
| OpenStreetMap.NodeCoordinatesFailure | utils/open_street_map.py:127-129 | a failed query of any node id gives None |
| OpenStreetMap.ValidateMethod | utils/open_street_map.py:261-264 | accepted iff the name is one of the three methods; otherwise the ValueError message of the source |
| OpenStreetMap.ValidateMethodName | utils/open_street_map.py:261 | every method's own name is accepted as that method |
| OpenStreetMap.Floats | utils/open_street_map.py:335 | the float list fails iff some item cannot be converted; otherwise one float per item |
| OpenStreetMap.BoxRing | utils/open_street_map.py:336 | the bounding box becomes a four-vertex ring |
| OpenStreetMap.BoxRingEnclosesBox | utils/open_street_map.py:336 | the ring runs counter-clockwise and encloses exactly the south-north by west-east box |
| OpenStreetMap.ConvertBoundingBox | utils/open_street_map.py:334-340 | boundingbox becomes the polygon osm_buildingbox and is removed, nothing else changes; an unreadable box is an error |
| OpenStreetMap.AddressFieldsSpec | utils/open_street_map.py:360-361 | each listed key appears as osm_<key> with address.get(key, None), and nothing else changes |
| OpenStreetMap.ConvertAddress | utils/open_street_map.py:359-368 | no address leaves the record as it is; the conversion fails iff the address is not a dict |
| OpenStreetMap.ConvertAddressEffect | utils/open_street_map.py:343-368 | afterwards there is no address, every osm_* field holds address.get(key, None), and the rest is unchanged |
| OpenStreetMap.Truncate | utils/open_street_map.py:371 | `int()` of a float truncates toward zero |
| OpenStreetMap.ForceOsmId | utils/open_street_map.py:371 | a missing or unconvertible osm_id is an error; otherwise osm_id becomes its integer value and nothing else changes |
| OpenStreetMap.ForceOsmIdOfString | utils/open_street_map.py:371 | an integer written out as text is read back |
| OpenStreetMap.NormalizeType | utils/open_street_map.py:374-375 | type yes becomes unknown; any other record is unchanged |
| OpenStreetMap.MoveOsmPolygon | utils/open_street_map.py:378-380 | osm_polygon replaces geometry and is removed; without it the record is unchanged |
| OpenStreetMap.AddUbidFields | utils/open_street_map.py:383-385 | a missing or non-polygon geometry is an error; otherwise ubid, its bounding box and centroid are added and nothing else changes |
| OpenStreetMap.RewriteResult | utils/open_street_map.py:332-385 | the in-place rewrite of one record is the result Rewritten specifies |
| OpenStreetMap.OsmKeysApart | utils/open_street_map.py:343-385 | no osm_* address field collides with a key the later steps write or delete |
| OpenStreetMap.RewrittenSteps | utils/open_street_map.py:332-385 | a successful rewrite passes through the five steps in source order |
| OpenStreetMap.RewrittenKeys | utils/open_street_map.py:332-385 | a rewritten record has no boundingbox, address or osm_polygon, an integer osm_id, no type yes, and the three UBID fields |
| OpenStreetMap.RewrittenGeometry | utils/open_street_map.py:378-380 | geometry is osm_polygon when the record had one |
| OpenStreetMap.RewrittenAddress | utils/open_street_map.py:359-368 | every osm_* address field survives the later steps with address.get(key, None) |
| OpenStreetMap.MapResults | utils/open_street_map.py:332 | a successful run over the results has one output per input |
| OpenStreetMap.MapResultsPointwise | utils/open_street_map.py:332-385 | the run succeeds iff every record does, and then holds each record's own result |
| OpenStreetMap.MapResultsErrorPersists | utils/open_street_map.py:332-385 | once a prefix fails, the run fails with that error |
| OpenStreetMap.ProcessDataframeForOsmBuildings | utils/open_street_map.py:237-387 | an invalid method is the ValueError; otherwise the collected results are rewritten, failing at the first error, and the error list passes through |

## Left out

- I/O is replaced by parameters: HTTP, files, environment variables, gzip, `gpd.read_file`, the CSV reader, MD5 with base64, and the output writers (main.py:99-103 and 106).
- The buildingid codec is a parameter: `encode` and `decode` of the code area.
- `decode_ubid` (main.py:20, 105) is not defined in utils/ubid.py; it is a parameter.
- Shapely's bounds, centroid, intersection and distance are abstract functions in `GeometryOps`.
- The Mercator projection of `mercantile.tile` is the parameter `tileOf`.
- The quadkey digits follow the Bing Maps Tile System, which is also what mercantile computes.
- Floating point is modelled as `real`. NaN, rounding and float parsing are left out. Python's `float(str)` is the parameter `parseFloat`.
- `int(str)` is modelled for an optional sign followed by digits. Python also accepts surrounding whitespace and underscores; those are not modelled.
- Directory creation is not modelled: `mkdir` at utils/update_dataset_links.py:22 and utils/update_quadkeys.py:18, and main.py:43-44.
- main.py:35-52 (API key, locations.json, address normalisation, the geocode call) and main.py:109-110 sit outside the modelled lines.
  - The geocoder itself is modelled in `GeocodeAddresses`.
- Not modelled from utils/open_street_map.py: `reverse_geocode`, `download_building`, `neighboring_buildings`, and the row loop at lines 268-329.
  - That loop queries Nominatim and Overpass per row; it is the parameter `collect`.
- Overpass, Nominatim and MapQuest answers are assumed to parse into the modelled shapes: a response with `elements` whose entries have a type, a Nominatim `boundingbox` that is a list of numeric strings (one held as a plain string is an error in the model, where Python would iterate its characters), and a MapQuest result with `locations`.
- GeocodeAddresses.LowerAscii: only ASCII case is modelled, on the assumption that MapQuest's `adminArea{i}Type` values are ASCII words; Python's str.lower() also lower-cases other Unicode letters.
  - A JSON decoding error is not modelled, and neither are geometries other than polygons.
- Requests are assumed to be deterministic: `query` gives the same answer for the same node id.
- Chunking.Chunk: it requires a positive chunk size, because a size of 0 raises ZeroDivisionError in Python, and the only caller passes 100.
- Pipeline.MatchFootprint: the row `gpd.sjoin` lists first, and the order of ties in `sort_values`, are not specified. The contract states only the promise: an intersecting footprint, otherwise one at minimum distance.
- Pipeline.ListOf: the order of `list(set)` is not fixed; the contract states only that each element appears exactly once.
- Pipeline.RunPipeline: its contract does not say what the cache holds after the run. `Pipeline.RefreshCache` states that step on its own.
- Ubid.GeoDataFrame.AddUbid: it requires every footprint cell to be None or a polygon, since encode_ubid of another geometry is out of scope.
- The frame is assumed to have a RangeIndex, so the label that `.index[0]` gives (main.py:91) can be used as a position, as `iloc` does.
- Concurrency, progress bars (tqdm) and printed messages are not modelled.
- utils/shp_to_geojson.py and the tmp/ scripts are not part of this model.
