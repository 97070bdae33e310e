/** utils/geojson_helpers.py: collect the rings of the Polygon features of a GeoJSON FeatureCollection. */
module GeoJsonHelpers {
  import opened Flattening

  /** A feature's `geometry`: its `type` and its `coordinates` list, whose items have type C. */
  datatype GeoJsonGeometry<C> = GeoJsonGeometry(typeName: string, coordinates: seq<C>)

  datatype Feature<C> = Feature(geometry: GeoJsonGeometry<C>)

  datatype FeatureCollection<C> = FeatureCollection(features: seq<Feature<C>>)

  predicate IsPolygon<C>(f: Feature<C>)
  {
    f.geometry.typeName == "Polygon"
  }

  /** The coordinates of the Polygon features, in order (specification of ExtractCoordinates). */
  function PolygonRings<C>(fs: seq<Feature<C>>): seq<C>
  {
    if fs == [] then []
    else (if IsPolygon(fs[0]) then fs[0].geometry.coordinates else []) + PolygonRings(fs[1..])
  }

  /** The Polygon features of `fs`, in order. */
  function PolygonFeatures<C>(fs: seq<Feature<C>>): (r: seq<Feature<C>>)
    ensures forall i :: 0 <= i < |r| ==> IsPolygon(r[i])
    ensures |r| <= |fs|
  {
    if fs == [] then []
    else (if IsPolygon(fs[0]) then [fs[0]] else []) + PolygonFeatures(fs[1..])
  }

  /** The `coordinates` list of each feature. */
  function CoordinateLists<C>(fs: seq<Feature<C>>): (r: seq<seq<C>>)
    ensures |r| == |fs|
    ensures forall i :: 0 <= i < |fs| ==> r[i] == fs[i].geometry.coordinates
  {
    if fs == [] then [] else [fs[0].geometry.coordinates] + CoordinateLists(fs[1..])
  }

  lemma {:induction false} PolygonRingsConcat<C>(a: seq<Feature<C>>, b: seq<Feature<C>>)
    ensures PolygonRings(a + b) == PolygonRings(a) + PolygonRings(b)
  {
    if a == [] {
      assert a + b == b;
    } else {
      assert (a + b)[1..] == a[1..] + b;
      PolygonRingsConcat(a[1..], b);
    }
  }

  /** `for feature in features: if Polygon: coordinates.extend(...)`. */
  method ExtractCoordinates<C>(geojsonData: FeatureCollection<C>) returns (coordinates: seq<C>)
    ensures coordinates == PolygonRings(geojsonData.features)
  {
    var features := geojsonData.features;
    coordinates := [];
    var i := 0;
    while i < |features|
      invariant 0 <= i <= |features|
      invariant coordinates == PolygonRings(features[..i])
    {
      var feature := features[i];
      PolygonRingsConcat(features[..i], [feature]);
      assert features[..i + 1] == features[..i] + [feature];
      if feature.geometry.typeName == "Polygon" {
        coordinates := coordinates + feature.geometry.coordinates;
      }
      i := i + 1;
    }
    assert features[..i] == features;
  }

  /** The output is the `coordinates` lists of the Polygon features only, concatenated in order. */
  lemma {:induction false} RingsAreFlattenedPolygonCoordinates<C>(fs: seq<Feature<C>>)
    ensures PolygonRings(fs) == Flatten(CoordinateLists(PolygonFeatures(fs)))
  {
    if fs != [] {
      RingsAreFlattenedPolygonCoordinates(fs[1..]);
      var head := if IsPolygon(fs[0]) then [fs[0]] else [];
      var rest := PolygonFeatures(fs[1..]);
      assert CoordinateLists(head + rest) == CoordinateLists(head) + CoordinateLists(rest);
      FlattenConcat(CoordinateLists(head), CoordinateLists(rest));
      if IsPolygon(fs[0]) {
        FlattenSingleton(fs[0].geometry.coordinates);
      }
    }
  }

  /** Features that are not Polygons contribute nothing; in particular zero features give []. */
  lemma {:induction false} NonPolygonsContributeNothing<C>(fs: seq<Feature<C>>)
    requires forall i :: 0 <= i < |fs| ==> !IsPolygon(fs[i])
    ensures PolygonRings(fs) == []
  {
    if fs != [] {
      NonPolygonsContributeNothing(fs[1..]);
    }
  }

  /** The output length is the sum of the ring counts of the Polygon features. */
  lemma ExtractLength<C>(fs: seq<Feature<C>>)
    ensures |PolygonRings(fs)| == TotalLength(CoordinateLists(PolygonFeatures(fs)))
  {
    RingsAreFlattenedPolygonCoordinates(fs);
    FlattenLength(CoordinateLists(PolygonFeatures(fs)));
  }

  /** Keeping only the Polygon features first does not change the output. */
  lemma {:induction false} FilterThenExtract<C>(fs: seq<Feature<C>>)
    ensures PolygonRings(PolygonFeatures(fs)) == PolygonRings(fs)
  {
    if fs != [] {
      FilterThenExtract(fs[1..]);
      var head := if IsPolygon(fs[0]) then [fs[0]] else [];
      PolygonRingsConcat(head, PolygonFeatures(fs[1..]));
      if IsPolygon(fs[0]) {
        assert PolygonRings(head) == fs[0].geometry.coordinates + PolygonRings(head[1..]);
        assert head[1..] == [];
      }
    }
  }
}
