/**
 * main.py, lines 57-105: give every geocoded point its zoom-9 quadkey, bring the tile
 * files up to date, load each tile once, match the point to a footprint (an intersecting
 * one first, the closest one otherwise), record the height and the UBID, and pair each
 * datum with a copy carrying its decoded UBID geometry. The Mercator projection, the
 * GeoJSON reader and the UBID decoder are parameters.
 */
module Pipeline {
  import opened Wrappers
  import opened Geometry
  import opened Flattening
  import opened Quadkey
  import opened Ubid
  import opened GeocodeAddresses
  import opened LocalStorage
  import opened DatasetLinks
  import opened QuadkeyFiles

  /** The exceptions that end main() in the modelled lines. */
  datatype PipelineError =
    | MissingCoordinates(position: nat)     // datum['longitude'] or datum['latitude'] is not a number
    | TileFileMissing(quadkey: int)         // gzip.open finds no tile file
    | NoFootprints(quadkey: int)            // .index[0] of an empty distance series
    | QuadkeyFailure(error: QuadkeyError)   // update_quadkeys raised

  /** A geocoded record with its coordinates read out. */
  datatype Datum = Datum(fields: Record, longitude: real, latitude: real)

  /** A datum after the first loop, with `datum['quadkey']`. */
  datatype Keyed = Keyed(datum: Datum, quadkey: int)

  datatype MatchKind = Intersection | Closest

  /** One row of a tile file: a footprint polygon and its height, -1 when unknown. */
  datatype Footprint = Footprint(geometry: Polygon, height: real)

  /** A datum after the second loop. */
  datatype Matched = Matched(keyed: Keyed, footprintMatch: MatchKind, geometry: Polygon, height: Option<real>, ubid: string)

  /** The coordinates of a geocoded record, when both are numbers. */
  function DatumOf(record: Record): (d: Option<Datum>)
    ensures d.Some? <==> "longitude" in record && record["longitude"].Number? && "latitude" in record && record["latitude"].Number?
    ensures d.Some? ==>
      && d.value.fields == record
      && d.value.longitude == record["longitude"].number
      && d.value.latitude == record["latitude"].number
  {
    if "longitude" in record && record["longitude"].Number? && "latitude" in record && record["latitude"].Number?
    then Some(Datum(record, record["longitude"].number, record["latitude"].number))
    else None
  }

  /** `int(mercantile.quadkey(mercantile.tile(lon, lat, 9)))`, with the projection as `tileOf`. */
  function DatumQuadkey(tileOf: (real, real) -> Tile, d: Datum): nat
  {
    QuadkeyOf(tileOf(d.longitude, d.latitude))
  }

  /** The quadkeys carried by the data. */
  function QuadkeySet(keyed: seq<Keyed>): set<int>
  {
    set i | 0 <= i < |keyed| :: keyed[i].quadkey
  }

  /** `keyed` is `data` with the coordinates read out and the quadkey of each datum added. */
  predicate KeyedFrom(data: seq<Record>, tileOf: (real, real) -> Tile, keyed: seq<Keyed>)
  {
    |keyed| == |data| && forall i :: 0 <= i < |data| ==>
      DatumOf(data[i]).Some? && keyed[i] == Keyed(DatumOf(data[i]).value, DatumQuadkey(tileOf, DatumOf(data[i]).value))
  }

  /** The keyed datum behind each matched one. */
  function KeyedOf(matched: seq<Matched>): (r: seq<Keyed>)
    ensures |r| == |matched| && forall i :: 0 <= i < |matched| ==> r[i] == matched[i].keyed
  {
    seq(|matched|, i requires 0 <= i < |matched| => matched[i].keyed)
  }

  /** Lines 57-62: every datum gets its quadkey, and the collected set is exactly the set of those quadkeys. */
  method AssignQuadkeys(data: seq<Record>, tileOf: (real, real) -> Tile) returns (r: Result<(seq<Keyed>, set<int>), PipelineError>)
    ensures r.Ok? <==> forall i :: 0 <= i < |data| ==> DatumOf(data[i]).Some?
    ensures r.Err? ==> exists i ::
      && 0 <= i < |data| && r.error == MissingCoordinates(i) && DatumOf(data[i]).None?
      && forall j :: 0 <= j < i ==> DatumOf(data[j]).Some?
    ensures r.Ok? ==> KeyedFrom(data, tileOf, r.value.0) && r.value.1 == QuadkeySet(r.value.0)
  {
    var keyed: seq<Keyed> := [];
    var quadkeys: set<int> := {};
    for i := 0 to |data|
      invariant |keyed| == i
      invariant forall j :: 0 <= j < i ==> DatumOf(data[j]).Some?
      invariant forall j :: 0 <= j < i ==> keyed[j] == Keyed(DatumOf(data[j]).value, DatumQuadkey(tileOf, DatumOf(data[j]).value))
      invariant quadkeys == QuadkeySet(keyed)
    {
      match DatumOf(data[i])
      case None =>
        return Err(MissingCoordinates(i));
      case Some(datum) =>
        var quadkey := DatumQuadkey(tileOf, datum);
        QuadkeySetSnoc(keyed, Keyed(datum, quadkey));
        quadkeys := quadkeys + {quadkey};
        keyed := keyed + [Keyed(datum, quadkey)];
    }
    return Ok((keyed, quadkeys));
  }

  lemma QuadkeySetSnoc(keyed: seq<Keyed>, k: Keyed)
    ensures QuadkeySet(keyed + [k]) == QuadkeySet(keyed) + {k.quadkey}
  {
    var ks := keyed + [k];
    assert ks[|keyed|].quadkey == k.quadkey;
    forall q | q in QuadkeySet(keyed)
      ensures q in QuadkeySet(ks)
    {
      var i :| 0 <= i < |keyed| && keyed[i].quadkey == q;
      assert ks[i].quadkey == q;
    }
  }

  /** Some footprint of the tile intersects the point, so the spatial join is non-empty. */
  predicate IntersectsAny(geo: GeometryOps, point: Point, tile: seq<Footprint>)
  {
    exists i :: 0 <= i < |tile| && geo.intersects(point, tile[i].geometry)
  }

  /** Footprint i is at minimum distance from the point over the whole tile. */
  predicate IsClosest(geo: GeometryOps, point: Point, tile: seq<Footprint>, i: nat)
  {
    i < |tile| && forall j :: 0 <= j < |tile| ==> geo.distance(point, tile[i].geometry) <= geo.distance(point, tile[j].geometry)
  }

  /** Lines 86-92: an intersecting footprint when there is one, else a closest one; the row order of neither is promised. */
  predicate ValidChoice(geo: GeometryOps, point: Point, tile: seq<Footprint>, kind: MatchKind, i: nat)
  {
    i < |tile| &&
    if IntersectsAny(geo, point, tile)
    then kind == Intersection && geo.intersects(point, tile[i].geometry)
    else kind == Closest && IsClosest(geo, point, tile, i)
  }

  /** A non-empty tile has a footprint at minimum distance. */
  lemma {:induction false} ClosestExists(geo: GeometryOps, point: Point, tile: seq<Footprint>)
    requires |tile| > 0
    ensures exists i: nat :: IsClosest(geo, point, tile, i)
  {
    if |tile| == 1 {
      assert IsClosest(geo, point, tile, 0);
    } else {
      var rest := tile[..|tile| - 1];
      ClosestExists(geo, point, rest);
      var i: nat :| IsClosest(geo, point, rest, i);
      var last := |tile| - 1;
      if geo.distance(point, tile[last].geometry) < geo.distance(point, tile[i].geometry) {
        assert IsClosest(geo, point, tile, last) by {
          forall j | 0 <= j < |tile|
            ensures geo.distance(point, tile[last].geometry) <= geo.distance(point, tile[j].geometry)
          {
            if j < last {
              assert tile[j] == rest[j];
            }
          }
        }
      } else {
        assert IsClosest(geo, point, tile, i) by {
          forall j | 0 <= j < |tile|
            ensures geo.distance(point, tile[i].geometry) <= geo.distance(point, tile[j].geometry)
          {
            if j < last {
              assert tile[j] == rest[j];
            }
          }
        }
      }
    }
  }

  /** Lines 86-92 for one point: the chosen footprint's position and how it was found; an empty tile has none. */
  method MatchFootprint(geo: GeometryOps, point: Point, tile: seq<Footprint>) returns (r: Option<(MatchKind, nat)>)
    ensures r.None? <==> tile == []
    ensures r.Some? ==> ValidChoice(geo, point, tile, r.value.0, r.value.1)
  {
    if exists i :: 0 <= i < |tile| && geo.intersects(point, tile[i].geometry) {
      var i :| 0 <= i < |tile| && geo.intersects(point, tile[i].geometry);
      return Some((Intersection, i));
    }
    if tile == [] {
      return None;
    }
    ClosestExists(geo, point, tile);
    var i: nat :| IsClosest(geo, point, tile, i);
    return Some((Closest, i));
  }

  /** Line 94: the height sentinel -1 becomes None. */
  function NormalizeHeight(height: real): (r: Option<real>)
    ensures r.None? <==> height == -1.0
    ensures r.Some? ==> r.value == height
  {
    if height != -1.0 then Some(height) else None
  }

  /** Lines 88-97: the fields a datum gains from its footprint. */
  function MatchedDatum(geo: GeometryOps, codec: UbidCodec, keyed: Keyed, kind: MatchKind, footprint: Footprint): (m: Matched)
    ensures m.keyed == keyed && m.footprintMatch == kind && m.geometry == footprint.geometry
    ensures m.height == NormalizeHeight(footprint.height)
    ensures m.ubid == EncodeUbid(geo, codec, footprint.geometry)
  {
    Matched(keyed, kind, footprint.geometry, NormalizeHeight(footprint.height), EncodeUbid(geo, codec, footprint.geometry))
  }

  /** `f"data/quadkeys/{quadkey}.geojsonl.gz"`, the file update_quadkeys caches the tile in. */
  function TilePath(quadkey: int): string
  {
    TileFile(DefaultSaveDirectory, quadkey)
  }

  /** The tile file is present and holds at least one footprint. */
  predicate TileReady(files: map<string, Bytes>, readTile: Bytes -> seq<Footprint>, quadkey: int)
  {
    TilePath(quadkey) in files && |readTile(files[TilePath(quadkey)])| > 0
  }

  /** The error the first unready datum raises. */
  function TileError(files: map<string, Bytes>, quadkey: int): PipelineError
  {
    if TilePath(quadkey) !in files then TileFileMissing(quadkey) else NoFootprints(quadkey)
  }

  /** The quadkeys of `keyed` in the order they first occur: the order tiles are read in. */
  function FirstLoads(keyed: seq<Keyed>): seq<int>
  {
    if keyed == [] then []
    else
      var ks, q := keyed[..|keyed| - 1], keyed[|keyed| - 1].quadkey;
      if q in QuadkeySet(ks) then FirstLoads(ks) else FirstLoads(ks) + [q]
  }

  /** Every loaded tile is what the reader makes of its cached file. */
  ghost predicate LoadedFromFiles(loaded: map<int, seq<Footprint>>, files: map<string, Bytes>, readTile: Bytes -> seq<Footprint>)
  {
    forall q :: q in loaded ==> TilePath(q) in files && loaded[q] == readTile(files[TilePath(q)])
  }

  /** The log of tile loads names every loaded tile once. */
  ghost predicate LoadedOnce(loads: seq<int>, loaded: map<int, seq<Footprint>>)
  {
    (forall a, b :: 0 <= a < b < |loads| ==> loads[a] != loads[b]) && forall q :: q in loads <==> q in loaded
  }

  /** The point of a datum, `Point(datum['longitude'], datum['latitude'])`. */
  function PointOf(keyed: Keyed): Point
  {
    Point(keyed.datum.longitude, keyed.datum.latitude)
  }

  /** The footprints the reader makes of a cached tile file. */
  function TileAt(files: map<string, Bytes>, readTile: Bytes -> seq<Footprint>, quadkey: int): seq<Footprint>
    requires TilePath(quadkey) in files
  {
    readTile(files[TilePath(quadkey)])
  }

  /** Datum `k` matched to row `row` of its tile by the rule of lines 86-97. */
  predicate MatchedFrom(geo: GeometryOps, codec: UbidCodec, files: map<string, Bytes>, readTile: Bytes -> seq<Footprint>,
                        k: Keyed, m: Matched, row: nat)
  {
    && TilePath(k.quadkey) in files
    && var tile := TileAt(files, readTile, k.quadkey);
    && ValidChoice(geo, PointOf(k), tile, m.footprintMatch, row)
    && m == MatchedDatum(geo, codec, k, m.footprintMatch, tile[row])
  }

  /** `m` came from some footprint of the tile cached for its quadkey. */
  ghost predicate MatchedFromSome(geo: GeometryOps, codec: UbidCodec, files: map<string, Bytes>,
                                  readTile: Bytes -> seq<Footprint>, m: Matched)
  {
    exists row :: MatchedFrom(geo, codec, files, readTile, m.keyed, m, row)
  }

  /** Every matched datum came from some footprint of the tile cached for its quadkey. */
  ghost predicate AllMatchedFrom(geo: GeometryOps, codec: UbidCodec, files: map<string, Bytes>,
                                 readTile: Bytes -> seq<Footprint>, matched: seq<Matched>)
  {
    forall i :: 0 <= i < |matched| ==> MatchedFromSome(geo, codec, files, readTile, matched[i])
  }

  /** The rows MatchData chose witness that every matched datum came from its tile. */
  lemma MatchedWitnesses(geo: GeometryOps, codec: UbidCodec, files: map<string, Bytes>, readTile: Bytes -> seq<Footprint>,
                         keyed: seq<Keyed>, matched: seq<Matched>, chosen: seq<nat>)
    requires |matched| == |keyed| == |chosen|
    requires forall i :: 0 <= i < |keyed| ==> MatchedFrom(geo, codec, files, readTile, keyed[i], matched[i], chosen[i])
    ensures KeyedOf(matched) == keyed
    ensures AllMatchedFrom(geo, codec, files, readTile, matched)
  {
    forall i | 0 <= i < |matched|
      ensures MatchedFromSome(geo, codec, files, readTile, matched[i])
    {
      assert MatchedFrom(geo, codec, files, readTile, keyed[i], matched[i], chosen[i]);
    }
  }

  /** Lines 73-81: the tile of a quadkey, read from its file only when it is not loaded yet. */
  method LoadTile(quadkey: int, files: map<string, Bytes>, readTile: Bytes -> seq<Footprint>,
                  loaded: map<int, seq<Footprint>>, ghost loads: seq<int>)
    returns (tile: Option<seq<Footprint>>, loaded': map<int, seq<Footprint>>, ghost loads': seq<int>)
    requires LoadedFromFiles(loaded, files, readTile) && LoadedOnce(loads, loaded)
    ensures LoadedFromFiles(loaded', files, readTile) && LoadedOnce(loads', loaded')
    ensures tile.None? <==> TilePath(quadkey) !in files
    ensures tile.Some? ==> tile.value == TileAt(files, readTile, quadkey) && loaded'.Keys == loaded.Keys + {quadkey}
    ensures tile.None? ==> loaded' == loaded
    ensures quadkey in loaded ==> loaded' == loaded && loads' == loads
    ensures quadkey !in loaded && tile.Some? ==> loads' == loads + [quadkey]
    ensures tile.None? ==> loads' == loads
  {
    loaded', loads' := loaded, loads;
    if quadkey !in loaded {
      var path := TilePath(quadkey);
      if path !in files {
        return None, loaded', loads';
      }
      loaded' := loaded[quadkey := readTile(files[path])];
      loads' := loads + [quadkey];
    }
    return Some(loaded'[quadkey]), loaded', loads';
  }

  /**
   * Lines 72-97. `loads` records each tile read; `chosen` is the row of the tile each datum
   * was matched to.
   */
  method MatchData(keyed: seq<Keyed>, files: map<string, Bytes>, readTile: Bytes -> seq<Footprint>,
                   geo: GeometryOps, codec: UbidCodec)
    returns (r: Result<seq<Matched>, PipelineError>, loaded: map<int, seq<Footprint>>, ghost loads: seq<int>, ghost chosen: seq<nat>)
    ensures r.Ok? <==> forall i :: 0 <= i < |keyed| ==> TileReady(files, readTile, keyed[i].quadkey)
    ensures r.Err? ==> exists i ::
      && 0 <= i < |keyed| && !TileReady(files, readTile, keyed[i].quadkey)
      && r.error == TileError(files, keyed[i].quadkey)
      && forall j :: 0 <= j < i ==> TileReady(files, readTile, keyed[j].quadkey)
    ensures LoadedFromFiles(loaded, files, readTile) && LoadedOnce(loads, loaded)
    ensures r.Ok? ==> loaded.Keys == QuadkeySet(keyed) && loads == FirstLoads(keyed)
    ensures r.Ok? ==> |r.value| == |keyed| == |chosen|
    ensures r.Ok? ==> forall i :: 0 <= i < |keyed| ==> MatchedFrom(geo, codec, files, readTile, keyed[i], r.value[i], chosen[i])
  {
    var matched: seq<Matched> := [];
    loaded, loads, chosen := map[], [], [];
    for i := 0 to |keyed|
      invariant |matched| == i == |chosen|
      invariant forall j :: 0 <= j < i ==> TileReady(files, readTile, keyed[j].quadkey)
      invariant LoadedFromFiles(loaded, files, readTile) && LoadedOnce(loads, loaded)
      invariant loaded.Keys == QuadkeySet(keyed[..i]) && loads == FirstLoads(keyed[..i])
      invariant forall j :: 0 <= j < i ==> MatchedFrom(geo, codec, files, readTile, keyed[j], matched[j], chosen[j])
    {
      var quadkey := keyed[i].quadkey;
      assert keyed[..i + 1] == keyed[..i] + [keyed[i]];
      QuadkeySetSnoc(keyed[..i], keyed[i]);
      var tile;
      tile, loaded, loads := LoadTile(quadkey, files, readTile, loaded, loads);
      if tile.None? {
        return Err(TileFileMissing(quadkey)), loaded, loads, chosen;
      }
      var m := MatchFootprint(geo, PointOf(keyed[i]), tile.value);
      match m
      case None =>
        return Err(NoFootprints(quadkey)), loaded, loads, chosen;
      case Some((kind, row)) =>
        var next := MatchedDatum(geo, codec, keyed[i], kind, tile.value[row]);
        assert TileReady(files, readTile, quadkey);
        assert MatchedFrom(geo, codec, files, readTile, keyed[i], next, row);
        ghost var before, beforeRows := matched, chosen;
        matched := matched + [next];
        chosen := chosen + [row];
        forall j | 0 <= j < i + 1
          ensures TileReady(files, readTile, keyed[j].quadkey)
          ensures MatchedFrom(geo, codec, files, readTile, keyed[j], matched[j], chosen[j])
        {
          if j < i {
            assert matched[j] == before[j] && chosen[j] == beforeRows[j];
          }
        }
    }
    assert keyed[..|keyed|] == keyed;
    return Ok(matched), loaded, loads, chosen;
  }

  /** Line 105: each datum preceded by a copy whose geometry is its decoded UBID. */
  function UbidRows(data: seq<Matched>, decodeUbid: string -> Polygon): seq<Matched>
  {
    Flatten(UbidPairs(data, decodeUbid))
  }

  function UbidPairs(data: seq<Matched>, decodeUbid: string -> Polygon): (pairs: seq<seq<Matched>>)
    ensures |pairs| == |data| && forall i :: 0 <= i < |data| ==> |pairs[i]| == 2
  {
    seq(|data|, i requires 0 <= i < |data| => [data[i].(geometry := decodeUbid(data[i].ubid)), data[i]])
  }

  lemma {:induction false} PairsLength(pairs: seq<seq<Matched>>)
    requires forall i :: 0 <= i < |pairs| ==> |pairs[i]| == 2
    ensures TotalLength(pairs) == 2 * |pairs|
  {
    if pairs != [] {
      PairsLength(pairs[1..]);
    }
  }

  /** The UBID output has 2·|data| rows: the decoded copy then the original, in data order. */
  lemma UbidRowsLayout(data: seq<Matched>, decodeUbid: string -> Polygon)
    ensures |UbidRows(data, decodeUbid)| == 2 * |data|
    ensures forall i :: 0 <= i < |data| ==>
      && UbidRows(data, decodeUbid)[2 * i] == data[i].(geometry := decodeUbid(data[i].ubid))
      && UbidRows(data, decodeUbid)[2 * i + 1] == data[i]
  {
    var pairs := UbidPairs(data, decodeUbid);
    FlattenLength(pairs);
    PairsLength(pairs);
    forall i | 0 <= i < |data|
      ensures UbidRows(data, decodeUbid)[2 * i] == data[i].(geometry := decodeUbid(data[i].ubid))
      ensures UbidRows(data, decodeUbid)[2 * i + 1] == data[i]
    {
      PairsLength(pairs[..i]);
      FlattenIndex(pairs, i, 0);
      FlattenIndex(pairs, i, 1);
    }
  }

  /** `list(quadkeys)`: the set's elements once each, in an order the set does not fix. */
  method ListOf(quadkeys: set<int>) returns (list: seq<int>)
    ensures forall q :: q in list <==> q in quadkeys
    ensures forall a, b :: 0 <= a < b < |list| ==> list[a] != list[b]
  {
    list := [];
    var rest := quadkeys;
    while rest != {}
      invariant forall q :: q in quadkeys <==> q in list || q in rest
      invariant forall q :: q in list ==> q !in rest
      invariant forall a, b :: 0 <= a < b < |list| ==> list[a] != list[b]
      decreases |rest|
    {
      assert exists q :: q in rest by {
        if forall q :: q !in rest {
          assert false;
        }
      }
      var q :| q in rest;
      list := list + [q];
      rest := rest - {q};
    }
  }

  /**
   * Lines 57-105 with the cache refresh of lines 65 and 68 between the two loops: the matched
   * data and the rows of the UBID output. A tile file is never missing once the refresh succeeds.
   */
  method RunPipeline(store: LocalStore, data: seq<Record>, tileOf: (real, real) -> Tile,
                     remote: string -> RemoteResource, fingerprint: Bytes -> string,
                     parseIndex: Bytes -> seq<IndexRow>, readTile: Bytes -> seq<Footprint>,
                     geo: GeometryOps, codec: UbidCodec, decodeUbid: string -> Polygon)
    returns (r: Result<(seq<Matched>, seq<Matched>), PipelineError>)
    modifies store
    ensures (exists i :: 0 <= i < |data| && DatumOf(data[i]).None?) <==> r.Err? && r.error.MissingCoordinates?
    ensures r.Err? && r.error.MissingCoordinates? ==> store.files == old(store.files)
    ensures r.Err? ==> !r.error.TileFileMissing?
    ensures r.Ok? ==> |r.value.0| == |data| && r.value.1 == UbidRows(r.value.0, decodeUbid)
    ensures r.Ok? ==> KeyedFrom(data, tileOf, KeyedOf(r.value.0))
    ensures r.Ok? ==> AllMatchedFrom(geo, codec, store.files, readTile, r.value.0)
  {
    var keying := AssignQuadkeys(data, tileOf);
    if keying.Err? {
      return Err(keying.error);
    }
    var (keyed, quadkeys) := keying.value;
    var refreshed := RefreshCache(store, quadkeys, remote, fingerprint, parseIndex);
    if refreshed.Err? {
      return Err(QuadkeyFailure(refreshed.error));
    }
    forall i | 0 <= i < |keyed|
      ensures TilePath(keyed[i].quadkey) in store.files
    {
      assert keyed[i].quadkey in QuadkeySet(keyed);
    }
    var files := store.files;
    r := MatchCachedTiles(keyed, files, readTile, geo, codec, decodeUbid);
  }

  /**
   * `end` and `outcome` are what update_dataset_links followed by update_quadkeys(list(quadkeys))
   * leave from `start`, for some order of the set's elements.
   */
  ghost predicate CacheRefreshed(start: CacheState, quadkeys: set<int>, remote: string -> RemoteResource,
                                 fingerprint: Bytes -> string, parseIndex: Bytes -> seq<IndexRow>,
                                 outcome: Result<(), QuadkeyError>, end: CacheState)
  {
    var linked := RefreshedLinks(start.files, DefaultSaveDirectory, remote, fingerprint);
    var fetched := if LinksNeedDownload(start.files, DefaultSaveDirectory, remote, fingerprint) then [DatasetUrl] else [];
    exists list: seq<int> ::
      && (forall q :: q in list <==> q in quadkeys)
      && (outcome, end)
         == RefreshTiles(CacheState(linked, start.downloads + fetched), parseIndex(linked[LinksFile(DefaultSaveDirectory)]),
                         list, remote, DefaultSaveDirectory)
  }

  /** Lines 65 and 68: refresh the index file, then the tile files of `quadkeys`; on success every one of them is cached. */
  method RefreshCache(store: LocalStore, quadkeys: set<int>, remote: string -> RemoteResource, fingerprint: Bytes -> string,
                      parseIndex: Bytes -> seq<IndexRow>)
    returns (r: Result<(), QuadkeyError>)
    modifies store
    ensures r.Ok? ==> forall q :: q in quadkeys ==> TilePath(q) in store.files
    ensures CacheRefreshed(CacheState(old(store.files), old(store.downloads)), quadkeys, remote, fingerprint, parseIndex,
                           r, CacheState(store.files, store.downloads))
  {
    UpdateDatasetLinks(store, remote, fingerprint);
    RefreshedLinksEffect(old(store.files), DefaultSaveDirectory, remote, fingerprint, "");
    var list := ListOf(quadkeys);
    ghost var before := CacheState(store.files, store.downloads);
    ghost var index := parseIndex(store.files[LinksFile(DefaultSaveDirectory)]);
    r := UpdateQuadkeys(store, list, remote, parseIndex);
    assert (r, CacheState(store.files, store.downloads)) == RefreshTiles(before, index, list, remote, DefaultSaveDirectory);
    if r.Ok? {
      RefreshTilesCachesAll(before, index, list, remote, DefaultSaveDirectory);
    }
  }

  /**
   * Lines 72-105 once every tile file is cached: the matched data and the rows of the UBID
   * output, or the error of the first datum whose tile holds no footprint.
   */
  method MatchCachedTiles(keyed: seq<Keyed>, files: map<string, Bytes>, readTile: Bytes -> seq<Footprint>,
                          geo: GeometryOps, codec: UbidCodec, decodeUbid: string -> Polygon)
    returns (r: Result<(seq<Matched>, seq<Matched>), PipelineError>)
    requires forall i :: 0 <= i < |keyed| ==> TilePath(keyed[i].quadkey) in files
    ensures r.Err? ==> exists i :: 0 <= i < |keyed| && r.error == NoFootprints(keyed[i].quadkey)
    ensures r.Ok? ==> KeyedOf(r.value.0) == keyed && r.value.1 == UbidRows(r.value.0, decodeUbid)
    ensures r.Ok? ==> AllMatchedFrom(geo, codec, files, readTile, r.value.0)
  {
    var matched, loaded, loads, chosen := MatchData(keyed, files, readTile, geo, codec);
    if matched.Err? {
      return Err(matched.error);
    }
    var ms := matched.value;
    MatchedWitnesses(geo, codec, files, readTile, keyed, ms, chosen);
    return Ok((ms, UbidRows(ms, decodeUbid)));
  }
}
