/**
 * utils/open_street_map.py: the decisions taken on Overpass and Nominatim answers. The
 * HTTP requests are parameters that map a query to the response it gets; the functions
 * here select elements of those responses and rewrite the collected result records.
 */
module OpenStreetMap {
  import opened Wrappers
  import opened Geometry
  import opened Flattening
  import opened Decimal
  import opened Ubid

  /** One element of an Overpass answer; keys an element may lack are Options. */
  datatype OsmElement = OsmElement(
    elementType: string,
    id: Option<int>,
    lat: Option<real>,
    lon: Option<real>,
    nodes: Option<seq<int>>,
    tags: Option<map<string, string>>)

  /** An Overpass answer: the HTTP status and the `elements` of its JSON body. */
  datatype OverpassResponse = OverpassResponse(statusCode: int, elements: seq<OsmElement>)

  // ---------------------------------------------------------------------------------
  // get_building_id_from_osm_id

  const RetrieveFailed: string := "Error: Failed to retrieve building ID."
  const BuildingIdNotFound: string := "Building ID not found for the given place ID."

  /** The function returns either an id or a message string. */
  datatype BuildingIdResult = BuildingId(id: int) | Message(text: string)

  /** The position of the first element that has an id. */
  function FirstWithId(elements: seq<OsmElement>): (r: Option<nat>)
    ensures r.None? <==> forall i :: 0 <= i < |elements| ==> elements[i].id.None?
    ensures r.Some? ==>
      && r.value < |elements| && elements[r.value].id.Some?
      && forall j :: 0 <= j < r.value ==> elements[j].id.None?
  {
    if elements == [] then None
    else if elements[0].id.Some? then Some(0)
    else match FirstWithId(elements[1..])
      case None => None
      case Some(i) => Some(i + 1)
  }

  /** get_building_id_from_osm_id(place_id), given the Overpass answer to its `way(id:...)` query. */
  method GetBuildingIdFromOsmId(response: OverpassResponse) returns (r: BuildingIdResult)
    ensures response.statusCode != 200 ==> r == Message(RetrieveFailed)
    ensures response.statusCode == 200 && FirstWithId(response.elements).None? ==> r == Message(BuildingIdNotFound)
    ensures response.statusCode == 200 && FirstWithId(response.elements).Some? ==>
      r == BuildingId(response.elements[FirstWithId(response.elements).value].id.value)
  {
    if response.statusCode != 200 {
      return Message(RetrieveFailed);
    }
    var buildingId: Option<int> := None;
    var k := 0;
    while k < |response.elements|
      invariant 0 <= k <= |response.elements|
      invariant forall j :: 0 <= j < k ==> response.elements[j].id.None?
      invariant buildingId.None?
    {
      if response.elements[k].id.Some? {
        buildingId := response.elements[k].id;
        break;
      }
      k := k + 1;
    }
    if buildingId.None? {
      return Message(BuildingIdNotFound);
    }
    return BuildingId(buildingId.value);
  }

  // ---------------------------------------------------------------------------------
  // find_nearest_building

  /** `element.get("tags", {}).get("building", "")`. */
  function BuildingTag(e: OsmElement): string
  {
    if e.tags.Some? && "building" in e.tags.value then e.tags.value["building"] else ""
  }

  /** A way tagged as a building of kind yes or retail. */
  predicate IsCandidateBuilding(e: OsmElement)
  {
    e.elementType == "way" && BuildingTag(e) in ["yes", "retail"]
  }

  /** find_nearest_building(lat, lon), given the Overpass answer to its `way(around:50,...)` query. */
  method FindNearestBuilding(response: OverpassResponse) returns (r: Option<OsmElement>)
    ensures response.statusCode != 200 ==> r.None?
    ensures r.None? && response.statusCode == 200 ==>
      forall i :: 0 <= i < |response.elements| ==> !IsCandidateBuilding(response.elements[i])
    ensures r.Some? ==> response.statusCode == 200 && exists i ::
      && 0 <= i < |response.elements| && r.value == response.elements[i] && IsCandidateBuilding(r.value)
      && forall j :: 0 <= j < i ==> !IsCandidateBuilding(response.elements[j])
  {
    if response.statusCode != 200 {
      return None;
    }
    var elements := response.elements;
    if |elements| > 0 {
      for k := 0 to |elements|
        invariant forall j :: 0 <= j < k ==> !IsCandidateBuilding(elements[j])
      {
        var element := elements[k];
        if element.elementType != "way" {
          continue;
        }
        if BuildingTag(element) !in ["yes", "retail"] {
          continue;
        }
        return Some(element);
      }
    }
    return None;
  }

  // ---------------------------------------------------------------------------------
  // download_building_and_nodes_by_id

  /** The node list of each element, empty where the element has none. */
  function NodeLists(elements: seq<OsmElement>): (r: seq<seq<int>>)
    ensures |r| == |elements|
    ensures forall i :: 0 <= i < |elements| ==> r[i] == if elements[i].nodes.Some? then elements[i].nodes.value else []
  {
    seq(|elements|, i requires 0 <= i < |elements| => if elements[i].nodes.Some? then elements[i].nodes.value else [])
  }

  /** The answer and the node ids of its elements, in element order; None for a failed request. */
  method DownloadBuildingAndNodesById(response: OverpassResponse) returns (r: Option<(OverpassResponse, seq<int>)>)
    ensures response.statusCode != 200 <==> r.None?
    ensures r.Some? ==> r.value.0 == response && r.value.1 == Flatten(NodeLists(response.elements))
  {
    if response.statusCode != 200 {
      return None;
    }
    var nodes: seq<int> := [];
    for k := 0 to |response.elements|
      invariant nodes == Flatten(NodeLists(response.elements[..k]))
    {
      var element := response.elements[k];
      assert response.elements[..k + 1] == response.elements[..k] + [element];
      assert NodeLists(response.elements[..k + 1]) == NodeLists(response.elements[..k]) + [NodeLists(response.elements[..k + 1])[k]];
      FlattenSnoc(NodeLists(response.elements[..k]), NodeLists(response.elements[..k + 1])[k]);
      if element.nodes.Some? && |element.nodes.value| > 0 {
        nodes := nodes + element.nodes.value;
      }
    }
    assert response.elements[..|response.elements|] == response.elements;
    return Some((response, nodes));
  }

  /** The node ids of element i come, in their own order, after those of the elements before it. */
  lemma NodesInElementOrder(elements: seq<OsmElement>, i: nat, j: nat)
    requires i < |elements| && elements[i].nodes.Some? && j < |elements[i].nodes.value|
    ensures TotalLength(NodeLists(elements[..i])) + j < |Flatten(NodeLists(elements))|
    ensures Flatten(NodeLists(elements))[TotalLength(NodeLists(elements[..i])) + j] == elements[i].nodes.value[j]
  {
    assert NodeLists(elements)[..i] == NodeLists(elements[..i]);
    FlattenIndex(NodeLists(elements), i, j);
  }

  /** The number of node ids is the sum of the elements' node counts. */
  lemma NodesCount(elements: seq<OsmElement>)
    ensures |Flatten(NodeLists(elements))| == TotalLength(NodeLists(elements))
  {
    FlattenLength(NodeLists(elements));
  }

  // ---------------------------------------------------------------------------------
  // get_node_coordinates

  /**
   * A Python dict from node id to (lat, lon), as its entries in insertion order. Assigning
   * to a present key replaces the value in place; a new key goes at the end.
   */
  type CoordinateDict = seq<(int, (real, real))>

  function Store(d: CoordinateDict, k: int, v: (real, real)): CoordinateDict
  {
    if d == [] then [(k, v)]
    else if d[0].0 == k then [(k, v)] + d[1..]
    else [d[0]] + Store(d[1..], k, v)
  }

  /** The keys of the dict, in order. */
  function Keys(d: CoordinateDict): (r: seq<int>)
    ensures |r| == |d| && forall i :: 0 <= i < |d| ==> r[i] == d[i].0
  {
    seq(|d|, i requires 0 <= i < |d| => d[i].0)
  }

  /** An existing key keeps its position and a new key is appended. */
  lemma {:induction false} StoreKeys(d: CoordinateDict, k: int, v: (real, real))
    ensures Keys(Store(d, k, v)) == if k in Keys(d) then Keys(d) else Keys(d) + [k]
  {
    if d != [] {
      assert d == [d[0]] + d[1..];
      KeysCons(d[0], d[1..]);
      if d[0].0 != k {
        StoreKeys(d[1..], k, v);
        KeysCons(d[0], Store(d[1..], k, v));
      } else {
        KeysCons((k, v), d[1..]);
      }
    }
  }

  /** Keys of a dict with one more entry in front. */
  lemma KeysCons(e: (int, (real, real)), rest: CoordinateDict)
    ensures Keys([e] + rest) == [e.0] + Keys(rest)
  {
  }

  /** No key appears twice. */
  predicate DistinctKeys(d: CoordinateDict)
  {
    forall a, b :: 0 <= a < b < |d| ==> d[a].0 != d[b].0
  }

  /** Entries under other keys are untouched, and in a dict without repeated keys the key holds the new value. */
  lemma {:induction false} StoreValues(d: CoordinateDict, k: int, v: (real, real))
    requires DistinctKeys(d)
    ensures |Store(d, k, v)| >= |d|
    ensures forall i :: 0 <= i < |d| && d[i].0 != k ==> Store(d, k, v)[i] == d[i]
    ensures forall i :: 0 <= i < |Store(d, k, v)| && Store(d, k, v)[i].0 == k ==> Store(d, k, v)[i].1 == v
  {
    if d != [] && d[0].0 != k {
      StoreValues(d[1..], k, v);
      var rest := Store(d[1..], k, v);
      assert Store(d, k, v) == [d[0]] + rest;
      forall i | 1 <= i < |d| && d[i].0 != k
        ensures Store(d, k, v)[i] == d[i]
      {
        assert d[1..][i - 1] == d[i];
      }
    } else if d != [] {
      forall i | 1 <= i < |d|
        ensures Store(d, k, v)[i].0 != k
      {
        assert Store(d, k, v)[i] == d[i];
      }
    }
  }

  /** Assigning keeps the keys distinct. */
  lemma StoreDistinct(d: CoordinateDict, k: int, v: (real, real))
    requires DistinctKeys(d)
    ensures DistinctKeys(Store(d, k, v))
  {
    StoreKeys(d, k, v);
    var e := Store(d, k, v);
    assert forall i :: 0 <= i < |e| ==> e[i].0 == Keys(e)[i];
    assert forall i :: 0 <= i < |d| ==> d[i].0 == Keys(d)[i];
  }

  /** A second assignment to the same key overrides the first. */
  lemma {:induction false} StoreTwice(d: CoordinateDict, k: int, v: (real, real), w: (real, real))
    ensures Store(Store(d, k, v), k, w) == Store(d, k, w)
  {
    if d != [] && d[0].0 != k {
      StoreTwice(d[1..], k, v, w);
    }
  }

  /** The loop of lines 134-149 keeps these elements: complete node records inside the WGS84 ranges. */
  predicate AcceptedFix(e: OsmElement)
  {
    && e.elementType == "node" && e.id.Some? && e.lat.Some? && e.lon.Some?
    && InWgs84Range(e.lat.value, e.lon.value)
  }

  /** The (lat, lon) of the last accepted element: the one whose assignment survives. */
  function LastFix(elements: seq<OsmElement>): (r: Option<(real, real)>)
    ensures r.None? <==> forall i :: 0 <= i < |elements| ==> !AcceptedFix(elements[i])
    ensures r.Some? ==> exists i ::
      && 0 <= i < |elements| && AcceptedFix(elements[i])
      && r.value == (elements[i].lat.value, elements[i].lon.value)
      && forall j :: i < j < |elements| ==> !AcceptedFix(elements[j])
  {
    if elements == [] then None
    else
      var last := elements[|elements| - 1];
      if AcceptedFix(last) then Some((last.lat.value, last.lon.value))
      else
        var r := LastFix(elements[..|elements| - 1]);
        assert forall i :: 0 <= i < |elements| - 1 ==> elements[..|elements| - 1][i] == elements[i];
        r
  }

  /** What the answer for one node id adds to the dict: its surviving fix, if any. */
  function NodeEntry(d: CoordinateDict, nodeId: int, elements: seq<OsmElement>): CoordinateDict
  {
    match LastFix(elements)
    case None => d
    case Some(fix) => Store(d, nodeId, fix)
  }

  /** The inner loop one element further. */
  lemma NodeEntrySnoc(d: CoordinateDict, nodeId: int, elements: seq<OsmElement>, e: OsmElement)
    ensures NodeEntry(d, nodeId, elements + [e]) ==
      if AcceptedFix(e) then Store(NodeEntry(d, nodeId, elements), nodeId, (e.lat.value, e.lon.value))
      else NodeEntry(d, nodeId, elements)
  {
    var es := elements + [e];
    assert es[..|es| - 1] == elements;
    if AcceptedFix(e) && LastFix(elements).Some? {
      StoreTwice(d, nodeId, LastFix(elements).value, (e.lat.value, e.lon.value));
    }
  }

  /** The dict after the loop over `nodeIds`; None once a query fails. */
  function CollectCoordinates(nodeIds: seq<int>, query: int -> OverpassResponse): Option<CoordinateDict>
  {
    if nodeIds == [] then Some([])
    else
      var nodeId := nodeIds[|nodeIds| - 1];
      match CollectCoordinates(nodeIds[..|nodeIds| - 1], query)
      case None => None
      case Some(d) =>
        if query(nodeId).statusCode != 200 then None
        else Some(NodeEntry(d, nodeId, query(nodeId).elements))
  }

  /** `[(x[1], x[0]) for x in node_coordinates.values()]`: (lon, lat) vertices in dict order. */
  function Vertices(d: CoordinateDict): (r: seq<Point>)
    ensures |r| == |d| && forall i :: 0 <= i < |d| ==> r[i] == Point(d[i].1.1, d[i].1.0)
  {
    seq(|d|, i requires 0 <= i < |d| => Point(d[i].1.1, d[i].1.0))
  }

  /** get_node_coordinates(node_ids): None on a failed query or fewer than 3 vertices. */
  function NodeCoordinates(nodeIds: seq<int>, query: int -> OverpassResponse): (r: Option<Polygon>)
    ensures r.Some? ==> |r.value.shell| >= 3
  {
    match CollectCoordinates(nodeIds, query)
    case None => None
    case Some(d) => if |d| < 3 then None else Some(Polygon(Vertices(d)))
  }

  /** get_node_coordinates(node_ids), with the Overpass `node(...)` query as `query`. */
  method GetNodeCoordinates(nodeIds: seq<int>, query: int -> OverpassResponse) returns (r: Option<Polygon>)
    ensures r == NodeCoordinates(nodeIds, query)
  {
    var nodeCoordinates: CoordinateDict := [];
    for k := 0 to |nodeIds|
      invariant CollectCoordinates(nodeIds[..k], query) == Some(nodeCoordinates)
    {
      var nodeId := nodeIds[k];
      assert nodeIds[..k + 1][..k] == nodeIds[..k];
      var response := query(nodeId);
      if response.statusCode != 200 {
        CollectFailurePersists(nodeIds, query, k + 1);
        return None;
      }
      nodeCoordinates := StoreNodeFixes(nodeCoordinates, nodeId, response.elements);
    }
    assert nodeIds[..|nodeIds|] == nodeIds;
    var polygon := Vertices(nodeCoordinates);
    if |polygon| < 3 {
      return None;
    }
    return Some(Polygon(polygon));
  }

  /** Lines 134-149: the accepted elements of one answer assigned to `nodeId` in turn. */
  method StoreNodeFixes(d: CoordinateDict, nodeId: int, elements: seq<OsmElement>) returns (d': CoordinateDict)
    ensures d' == NodeEntry(d, nodeId, elements)
  {
    d' := d;
    for j := 0 to |elements|
      invariant d' == NodeEntry(d, nodeId, elements[..j])
    {
      var element := elements[j];
      assert elements[..j + 1] == elements[..j] + [element];
      NodeEntrySnoc(d, nodeId, elements[..j], element);
      if element.elementType == "node" && element.id.Some? && element.lat.Some? && element.lon.Some? {
        var lat := element.lat.value;
        var lon := element.lon.value;
        if -90.0 <= lat <= 90.0 && -180.0 <= lon <= 180.0 {
          d' := Store(d', nodeId, (lat, lon));
        } else {
          continue;
        }
      }
    }
    assert elements[..|elements|] == elements;
  }

  /** Once a query of a prefix fails, the whole collection fails. */
  lemma {:induction false} CollectFailurePersists(nodeIds: seq<int>, query: int -> OverpassResponse, k: nat)
    requires k <= |nodeIds| && CollectCoordinates(nodeIds[..k], query).None?
    ensures CollectCoordinates(nodeIds, query).None?
    decreases |nodeIds| - k
  {
    if k < |nodeIds| {
      assert nodeIds[..k + 1][..k] == nodeIds[..k];
      CollectFailurePersists(nodeIds, query, k + 1);
    } else {
      assert nodeIds[..k] == nodeIds;
    }
  }

  /** The collection fails exactly when the query of some node id fails. */
  lemma {:induction false} CollectFailsOnError(nodeIds: seq<int>, query: int -> OverpassResponse)
    ensures CollectCoordinates(nodeIds, query).None? <==>
      exists i :: 0 <= i < |nodeIds| && query(nodeIds[i]).statusCode != 200
  {
    if nodeIds != [] {
      var n := |nodeIds| - 1;
      var prefix := nodeIds[..n];
      CollectFailsOnError(prefix, query);
      if exists i :: 0 <= i < |prefix| && query(prefix[i]).statusCode != 200 {
        var i :| 0 <= i < |prefix| && query(prefix[i]).statusCode != 200;
        assert nodeIds[i] == prefix[i];
      }
    }
  }

  /** The ids in first-occurrence order, each once. */
  function Dedup(ids: seq<int>): seq<int>
  {
    if ids == [] then []
    else
      var rest := Dedup(ids[..|ids| - 1]);
      if ids[|ids| - 1] in rest then rest else rest + [ids[|ids| - 1]]
  }

  /** Dedup keeps every id once and nothing else. */
  lemma {:induction false} DedupMembers(ids: seq<int>)
    ensures forall x :: x in Dedup(ids) <==> x in ids
    ensures forall a, b :: 0 <= a < b < |Dedup(ids)| ==> Dedup(ids)[a] != Dedup(ids)[b]
  {
    if ids != [] {
      var prefix := ids[..|ids| - 1];
      DedupMembers(prefix);
      assert ids == prefix + [ids[|ids| - 1]];
    }
  }

  /** The queried node ids whose answer holds an accepted fix, in query order. */
  function WithFix(nodeIds: seq<int>, query: int -> OverpassResponse): (r: seq<int>)
    ensures forall x :: x in r <==> x in nodeIds && LastFix(query(x).elements).Some?
  {
    if nodeIds == [] then []
    else
      var rest := WithFix(nodeIds[..|nodeIds| - 1], query);
      var x := nodeIds[|nodeIds| - 1];
      assert nodeIds == nodeIds[..|nodeIds| - 1] + [x];
      if LastFix(query(x).elements).Some? then rest + [x] else rest
  }

  /** Each entry of a dict holds the surviving fix of its own node id. */
  ghost predicate HoldsLastFixes(d: CoordinateDict, query: int -> OverpassResponse)
  {
    forall i :: 0 <= i < |d| ==> LastFix(query(d[i].0).elements) == Some(d[i].1)
  }

  /**
   * When every query succeeds, the dict's keys are the node ids with a fix, each at the position
   * of its first query, and each holds its node's last accepted (lat, lon).
   */
  lemma {:induction false} CollectedEntries(nodeIds: seq<int>, query: int -> OverpassResponse)
    requires CollectCoordinates(nodeIds, query).Some?
    ensures var d := CollectCoordinates(nodeIds, query).value;
      Keys(d) == Dedup(WithFix(nodeIds, query)) && DistinctKeys(d) && HoldsLastFixes(d, query)
  {
    if nodeIds != [] {
      var n := |nodeIds| - 1;
      var prefix, nodeId := nodeIds[..n], nodeIds[n];
      CollectedEntries(prefix, query);
      var d := CollectCoordinates(prefix, query).value;
      var elements := query(nodeId).elements;
      assert nodeIds[..|nodeIds| - 1] == prefix;
      match LastFix(elements)
      case None =>
      case Some(fix) =>
        StoreKeys(d, nodeId, fix);
        StoreValues(d, nodeId, fix);
        StoreDistinct(d, nodeId, fix);
        assert WithFix(nodeIds, query) == WithFix(prefix, query) + [nodeId];
        assert (WithFix(prefix, query) + [nodeId])[..|WithFix(prefix, query)|] == WithFix(prefix, query);
        var e := Store(d, nodeId, fix);
        forall i | 0 <= i < |e|
          ensures LastFix(query(e[i].0).elements) == Some(e[i].1)
        {
          if e[i].0 != nodeId {
            assert Keys(e)[i] == e[i].0;
            assert i < |d|;
            assert e[i] == d[i];
          }
        }
    }
  }

  /** Every vertex of the polygon lies inside the WGS84 ranges, as (lon, lat). */
  lemma NodeCoordinatesInRange(nodeIds: seq<int>, query: int -> OverpassResponse)
    requires NodeCoordinates(nodeIds, query).Some?
    ensures forall i :: 0 <= i < |NodeCoordinates(nodeIds, query).value.shell| ==>
      InWgs84Range(NodeCoordinates(nodeIds, query).value.shell[i].y, NodeCoordinates(nodeIds, query).value.shell[i].x)
  {
    CollectedEntries(nodeIds, query);
    var d := CollectCoordinates(nodeIds, query).value;
    forall i | 0 <= i < |d|
      ensures InWgs84Range(d[i].1.0, d[i].1.1)
    {
      var elements := query(d[i].0).elements;
      var j :| 0 <= j < |elements| && AcceptedFix(elements[j]) && d[i].1 == (elements[j].lat.value, elements[j].lon.value);
    }
  }

  /** With every query answered, the result has one vertex per distinct node id with a fix, and is None below three. */
  lemma NodeCoordinatesVertexCount(nodeIds: seq<int>, query: int -> OverpassResponse)
    requires forall i :: 0 <= i < |nodeIds| ==> query(nodeIds[i]).statusCode == 200
    ensures NodeCoordinates(nodeIds, query).None? <==> |Dedup(WithFix(nodeIds, query))| < 3
    ensures NodeCoordinates(nodeIds, query).Some? ==>
      |NodeCoordinates(nodeIds, query).value.shell| == |Dedup(WithFix(nodeIds, query))|
  {
    CollectFailsOnError(nodeIds, query);
    CollectedEntries(nodeIds, query);
  }

  /** A failed query of any node id gives None. */
  lemma NodeCoordinatesFailure(nodeIds: seq<int>, query: int -> OverpassResponse, i: nat)
    requires i < |nodeIds| && query(nodeIds[i]).statusCode != 200
    ensures NodeCoordinates(nodeIds, query).None?
  {
    CollectFailsOnError(nodeIds, query);
  }

  // ---------------------------------------------------------------------------------
  // process_dataframe_for_osm_buildings: method validation and the result rewrite

  /** A value of a result record: the JSON values Nominatim and Overpass give, and shapely geometries. */
  datatype Value =
    | VNone
    | VStr(s: string)
    | VInt(i: int)
    | VReal(r: real)
    | VList(items: seq<Value>)
    | VDict(entries: map<string, Value>)
    | VPolygon(polygon: Polygon)
    | VPoint(point: Point)

  type OsmRecord = map<string, Value>

  datatype ProcessingMethod = GeometryCentroid | OsmIdLookup | LatLong

  datatype OsmError =
    | InvalidMethod(message: string)  // ValueError of lines 261-264
    | BoundingBoxUnreadable           // boundingbox is not a list of at least four numbers
    | AddressNotDict                  // address has no .get
    | OsmIdMissing                    // KeyError on result["osm_id"]
    | OsmIdUnreadable                 // int() refuses the osm_id
    | GeometryMissing                 // KeyError on result["geometry"]
    | GeometryNotPolygon              // the geometry is not a footprint polygon

  function MethodName(m: ProcessingMethod): string
  {
    match m
    case GeometryCentroid => "geometry_centroid"
    case OsmIdLookup => "osm_id"
    case LatLong => "lat_long"
  }

  /** Lines 261-264: the method must be one of the three names, or ValueError is raised. */
  function ValidateMethod(name: string): (r: Result<ProcessingMethod, OsmError>)
    ensures r.Ok? <==> name in ["geometry_centroid", "osm_id", "lat_long"]
    ensures r.Ok? ==> MethodName(r.value) == name
    ensures r.Err? ==> r.error == InvalidMethod("Invalid processing method: " + name
      + ", must be one of ['geometry_centroid', 'osm_id', 'lat_long']")
  {
    if name == "geometry_centroid" then Ok(GeometryCentroid)
    else if name == "osm_id" then Ok(OsmIdLookup)
    else if name == "lat_long" then Ok(LatLong)
    else Err(InvalidMethod("Invalid processing method: " + name + ", must be one of ['geometry_centroid', 'osm_id', 'lat_long']"))
  }

  /** Every method name is accepted as itself. */
  lemma ValidateMethodName(m: ProcessingMethod)
    ensures ValidateMethod(MethodName(m)) == Ok(m)
  {
  }

  /** The two records agree on every key outside `touched`. */
  ghost predicate SameExcept(a: OsmRecord, b: OsmRecord, touched: set<string>)
  {
    forall k :: k !in touched ==> (k in a <==> k in b) && (k in a ==> a[k] == b[k])
  }

  /** `float(x)`; Python's parsing of a numeric string is the parameter `parseFloat`. */
  function ToFloat(v: Value, parseFloat: string -> Option<real>): Option<real>
  {
    match v
    case VReal(r) => Some(r)
    case VInt(i) => Some(i as real)
    case VStr(s) => parseFloat(s)
    case _ => None
  }

  /** `[float(x) for x in items]`, None when one of them cannot be converted. */
  function Floats(items: seq<Value>, parseFloat: string -> Option<real>): (r: Option<seq<real>>)
    ensures r.None? <==> exists i :: 0 <= i < |items| && ToFloat(items[i], parseFloat).None?
    ensures r.Some? ==> |r.value| == |items| && forall i :: 0 <= i < |items| ==> Some(r.value[i]) == ToFloat(items[i], parseFloat)
  {
    if items == [] then Some([])
    else match (ToFloat(items[0], parseFloat), Floats(items[1..], parseFloat))
      case (Some(x), Some(xs)) =>
        assert forall i :: 1 <= i < |items| ==> items[1..][i - 1] == items[i];
        Some([x] + xs)
      case (None, _) => None
      case (_, None) =>
        var i :| 0 <= i < |items[1..]| && ToFloat(items[1..][i], parseFloat).None?;
        assert items[i + 1] == items[1..][i];
        None
  }

  /** Line 336: the box [south, north, west, east] as the ring (w,s), (e,s), (e,n), (w,n). */
  function BoxRing(bbox: seq<real>): (ring: seq<Point>)
    requires |bbox| >= 4
    ensures |ring| == 4
  {
    [Point(bbox[2], bbox[0]), Point(bbox[3], bbox[0]), Point(bbox[3], bbox[1]), Point(bbox[2], bbox[1])]
  }

  /** The ring runs counter-clockwise round the box from its south-west corner and encloses exactly it. */
  lemma BoxRingEnclosesBox(bbox: seq<real>)
    requires |bbox| >= 4
    ensures var ring := BoxRing(bbox);
      TwiceSignedArea(ring + [ring[0]]) == 2.0 * (bbox[3] - bbox[2]) * (bbox[1] - bbox[0])
  {
    var s, n, w, e := bbox[0], bbox[1], bbox[2], bbox[3];
    var r := BoxRing(bbox) + [BoxRing(bbox)[0]];
    assert r[4..][1..] == [];
    assert TwiceSignedArea(r[4..]) == 0.0;
    assert r[3..][1..] == r[4..];
    assert TwiceSignedArea(r[3..]) == w * s - w * n;
    assert r[2..][1..] == r[3..];
    assert TwiceSignedArea(r[2..]) == (e * n - w * n) + (w * s - w * n);
    assert r[1..][1..] == r[2..];
    assert TwiceSignedArea(r[1..]) == (e * n - e * s) + (e * n - w * n) + (w * s - w * n);
    assert TwiceSignedArea(r) == (w * s - e * s) + (e * n - e * s) + (e * n - w * n) + (w * s - w * n);
  }

  /** Lines 334-340: boundingbox becomes the polygon osm_buildingbox. */
  function ConvertBoundingBox(result: OsmRecord, parseFloat: string -> Option<real>): (r: Result<OsmRecord, OsmError>)
    ensures "boundingbox" !in result ==> r == Ok(result)
    ensures r.Err? ==> r.error == BoundingBoxUnreadable
    ensures "boundingbox" in result && r.Ok? ==>
      && result["boundingbox"].VList?
      && var bbox := Floats(result["boundingbox"].items, parseFloat);
      && bbox.Some? && |bbox.value| >= 4
      && "boundingbox" !in r.value
      && "osm_buildingbox" in r.value && r.value["osm_buildingbox"] == VPolygon(Polygon(BoxRing(bbox.value)))
      && SameExcept(result, r.value, {"boundingbox", "osm_buildingbox"})
  {
    if "boundingbox" !in result then Ok(result)
    else
      var box := result["boundingbox"];
      if !box.VList? then Err(BoundingBoxUnreadable)
      else match Floats(box.items, parseFloat)
        case None => Err(BoundingBoxUnreadable)
        case Some(bbox) =>
          if |bbox| < 4 then Err(BoundingBoxUnreadable)
          else Ok(result["osm_buildingbox" := VPolygon(Polygon(BoxRing(bbox)))] - {"boundingbox"})
  }

  /** Lines 343-358: the address keys copied into osm_* fields. */
  const AddressKeys: seq<string> := [
    "shop", "house_number", "road", "neighbourhood", "amenity", "building", "borough",
    "city", "county", "state", "postcode", "country", "country_code", "ISO3166-2-lvl4"]

  /** `address.get(key, None)`. */
  function AddressValue(address: map<string, Value>, key: string): Value
  {
    if key in address then address[key] else VNone
  }

  /** The loop of lines 360-361 over the first keys. */
  function AddressFields(result: OsmRecord, address: map<string, Value>, keys: seq<string>): OsmRecord
  {
    if keys == [] then result
    else
      var key := keys[|keys| - 1];
      AddressFields(result, address, keys[..|keys| - 1])["osm_" + key := AddressValue(address, key)]
  }

  /** The osm_* field names. */
  function OsmKeys(keys: seq<string>): set<string>
  {
    set i | 0 <= i < |keys| :: "osm_" + keys[i]
  }

  /** Each listed key appears as osm_<key>, None where the address lacks it; nothing else changes. */
  lemma {:induction false} AddressFieldsSpec(result: OsmRecord, address: map<string, Value>, keys: seq<string>)
    ensures forall i :: 0 <= i < |keys| ==>
      "osm_" + keys[i] in AddressFields(result, address, keys)
      && AddressFields(result, address, keys)["osm_" + keys[i]] == AddressValue(address, keys[i])
    ensures SameExcept(result, AddressFields(result, address, keys), OsmKeys(keys))
  {
    if keys != [] {
      var n := |keys| - 1;
      var prefix := keys[..n];
      AddressFieldsSpec(result, address, prefix);
      forall i | 0 <= i < n
        ensures "osm_" + keys[i] in AddressFields(result, address, keys)
        ensures AddressFields(result, address, keys)["osm_" + keys[i]] == AddressValue(address, keys[i])
      {
        assert prefix[i] == keys[i];
        if "osm_" + keys[i] == "osm_" + keys[n] {
          assert keys[i] == ("osm_" + keys[i])[4..];
          assert keys[n] == ("osm_" + keys[n])[4..];
        }
      }
      assert OsmKeys(prefix) <= OsmKeys(keys) by {
        forall k | k in OsmKeys(prefix)
          ensures k in OsmKeys(keys)
        {
          var i :| 0 <= i < |prefix| && k == "osm_" + prefix[i];
          assert keys[i] == prefix[i];
        }
      }
      assert "osm_" + keys[n] in OsmKeys(keys);
    }
  }

  /** Lines 359-368: address becomes osm_* fields and is removed. */
  function ConvertAddress(result: OsmRecord): (r: Result<OsmRecord, OsmError>)
    ensures "address" !in result ==> r == Ok(result)
    ensures "address" in result ==> (r.Ok? <==> result["address"].VDict?)
    ensures r.Err? ==> r.error == AddressNotDict
  {
    if "address" !in result then Ok(result)
    else match result["address"]
      case VDict(address) => Ok(AddressFields(result, address, AddressKeys) - {"address"})
      case _ => Err(AddressNotDict)
  }

  /** What the address conversion leaves: every osm_* field, no address, the rest as it was. */
  lemma ConvertAddressEffect(result: OsmRecord)
    requires "address" in result && result["address"].VDict?
    ensures var r := ConvertAddress(result).value;
      && "address" !in r
      && (forall i :: 0 <= i < |AddressKeys| ==>
           "osm_" + AddressKeys[i] in r && r["osm_" + AddressKeys[i]] == AddressValue(result["address"].entries, AddressKeys[i]))
      && SameExcept(result, r, OsmKeys(AddressKeys) + {"address"})
  {
    AddressFieldsSpec(result, result["address"].entries, AddressKeys);
    forall i | 0 <= i < |AddressKeys|
      ensures "osm_" + AddressKeys[i] != "address"
    {
      assert ("osm_" + AddressKeys[i])[0] == 'o';
    }
  }

  /** `int(x)` of a float: truncation toward zero. */
  function Truncate(x: real): (t: int)
    ensures x >= 0.0 ==> t as real <= x < t as real + 1.0
    ensures x < 0.0 ==> t as real - 1.0 < x <= t as real
  {
    if x >= 0.0 then x.Floor else -((-x).Floor)
  }

  /** `int(x)` for the values an osm_id can hold; None where Python raises. */
  function ToInt(v: Value): Option<int>
  {
    match v
    case VInt(i) => Some(i)
    case VReal(x) => Some(Truncate(x))
    case VStr(s) => ParseInt(s)
    case _ => None
  }

  /** Line 371: osm_id becomes an integer. */
  function ForceOsmId(result: OsmRecord): (r: Result<OsmRecord, OsmError>)
    ensures "osm_id" !in result ==> r == Err(OsmIdMissing)
    ensures "osm_id" in result ==> (r.Ok? <==> ToInt(result["osm_id"]).Some?)
    ensures r.Err? ==> r.error in {OsmIdMissing, OsmIdUnreadable}
    ensures r.Ok? ==> r.value == result["osm_id" := VInt(ToInt(result["osm_id"]).value)]
  {
    if "osm_id" !in result then Err(OsmIdMissing)
    else match ToInt(result["osm_id"])
      case None => Err(OsmIdUnreadable)
      case Some(n) => Ok(result["osm_id" := VInt(n)])
  }

  /** An integer written out by str() is read back by the osm_id conversion. */
  lemma ForceOsmIdOfString(result: OsmRecord, n: int)
    requires "osm_id" in result && result["osm_id"] == VStr(IntToString(n))
    ensures ForceOsmId(result) == Ok(result["osm_id" := VInt(n)])
  {
    ParseIntToString(n);
  }

  /** Lines 374-375: a building type of yes becomes unknown. */
  function NormalizeType(result: OsmRecord): (r: OsmRecord)
    ensures "type" in result && result["type"] == VStr("yes") ==> r == result["type" := VStr("unknown")]
    ensures !("type" in result && result["type"] == VStr("yes")) ==> r == result
  {
    if "type" in result && result["type"] == VStr("yes") then result["type" := VStr("unknown")] else result
  }

  /** Lines 378-380: osm_polygon replaces geometry. */
  function MoveOsmPolygon(result: OsmRecord): (r: OsmRecord)
    ensures "osm_polygon" !in r
    ensures "osm_polygon" in result ==> "geometry" in r && r["geometry"] == result["osm_polygon"]
    ensures "osm_polygon" !in result ==> r == result
    ensures SameExcept(result, r, {"osm_polygon", "geometry"})
  {
    if "osm_polygon" in result then result["geometry" := result["osm_polygon"]] - {"osm_polygon"} else result
  }

  /** Lines 383-385: the UBID of the geometry, its bounding box and its centroid. */
  function AddUbidFields(result: OsmRecord, geo: GeometryOps, codec: UbidCodec): (r: Result<OsmRecord, OsmError>)
    ensures "geometry" !in result ==> r == Err(GeometryMissing)
    ensures "geometry" in result ==> (r.Ok? <==> result["geometry"].VPolygon?)
    ensures r.Err? ==> r.error in {GeometryMissing, GeometryNotPolygon}
    ensures r.Ok? ==>
      var ubid := EncodeUbid(geo, codec, result["geometry"].polygon);
      && "ubid" in r.value && "ubid_bounding_box" in r.value && "ubid_centroid" in r.value
      && r.value["ubid"] == VStr(ubid)
      && r.value["ubid_bounding_box"] == VPolygon(BoundingBox(codec, ubid))
      && r.value["ubid_centroid"] == VPoint(Centroid(codec, ubid))
      && SameExcept(result, r.value, {"ubid", "ubid_bounding_box", "ubid_centroid"})
  {
    if "geometry" !in result then Err(GeometryMissing)
    else match result["geometry"]
      case VPolygon(polygon) =>
        var ubid := EncodeUbid(geo, codec, polygon);
        Ok(result["ubid" := VStr(ubid)]["ubid_bounding_box" := VPolygon(BoundingBox(codec, ubid))]
                 ["ubid_centroid" := VPoint(Centroid(codec, ubid))])
      case _ => Err(GeometryNotPolygon)
  }

  /** The body of the loop of lines 332-385 for one result, step by step. */
  function Rewritten(result: OsmRecord, parseFloat: string -> Option<real>, geo: GeometryOps, codec: UbidCodec)
    : Result<OsmRecord, OsmError>
  {
    match ConvertBoundingBox(result, parseFloat)
    case Err(e) => Err(e)
    case Ok(r1) =>
      match ConvertAddress(r1)
      case Err(e) => Err(e)
      case Ok(r2) =>
        match ForceOsmId(r2)
        case Err(e) => Err(e)
        case Ok(r3) => AddUbidFields(MoveOsmPolygon(NormalizeType(r3)), geo, codec)
  }

  /** One result record rewritten in place, as the loop body of lines 332-385 does it. */
  method RewriteResult(result: OsmRecord, parseFloat: string -> Option<real>, geo: GeometryOps, codec: UbidCodec)
    returns (r: Result<OsmRecord, OsmError>)
    ensures r == Rewritten(result, parseFloat, geo, codec)
  {
    var current := result;
    if "boundingbox" in current {
      var box := current["boundingbox"];
      if !box.VList? {
        return Err(BoundingBoxUnreadable);
      }
      var bbox := Floats(box.items, parseFloat);
      if bbox.None? || |bbox.value| < 4 {
        return Err(BoundingBoxUnreadable);
      }
      current := current["osm_buildingbox" := VPolygon(Polygon(BoxRing(bbox.value)))];
      current := current - {"boundingbox"};
    }
    if "address" in current {
      if !current["address"].VDict? {
        return Err(AddressNotDict);
      }
      var address := current["address"].entries;
      ghost var before := current;
      for i := 0 to |AddressKeys|
        invariant current == AddressFields(before, address, AddressKeys[..i])
      {
        assert AddressKeys[..i + 1][..i] == AddressKeys[..i];
        current := current["osm_" + AddressKeys[i] := AddressValue(address, AddressKeys[i])];
      }
      assert AddressKeys[..|AddressKeys|] == AddressKeys;
      current := current - {"address"};
    }
    if "osm_id" !in current {
      return Err(OsmIdMissing);
    }
    var osmId := ToInt(current["osm_id"]);
    if osmId.None? {
      return Err(OsmIdUnreadable);
    }
    current := current["osm_id" := VInt(osmId.value)];
    if "type" in current && current["type"] == VStr("yes") {
      current := current["type" := VStr("unknown")];
    }
    if "osm_polygon" in current {
      current := current["geometry" := current["osm_polygon"]];
      current := current - {"osm_polygon"};
    }
    if "geometry" !in current {
      return Err(GeometryMissing);
    }
    if !current["geometry"].VPolygon? {
      return Err(GeometryNotPolygon);
    }
    var ubid := EncodeUbid(geo, codec, current["geometry"].polygon);
    current := current["ubid" := VStr(ubid)];
    current := current["ubid_bounding_box" := VPolygon(BoundingBox(codec, ubid))];
    current := current["ubid_centroid" := VPoint(Centroid(codec, ubid))];
    return Ok(current);
  }

  /** None of the osm_* address fields collides with a key the later steps write or remove. */
  lemma OsmKeysApart()
    ensures forall k :: k in OsmKeys(AddressKeys) ==>
      k !in {"address", "boundingbox", "osm_id", "type", "osm_polygon", "geometry", "ubid", "ubid_bounding_box", "ubid_centroid"}
  {
    forall k | k in OsmKeys(AddressKeys)
      ensures k !in {"address", "boundingbox", "osm_id", "type", "osm_polygon", "geometry", "ubid", "ubid_bounding_box", "ubid_centroid"}
    {
      var i :| 0 <= i < |AddressKeys| && k == "osm_" + AddressKeys[i];
      assert k[..4] == "osm_" && k[4..] == AddressKeys[i];
    }
  }

  /** The intermediate records of a successful rewrite. */
  lemma RewrittenSteps(result: OsmRecord, parseFloat: string -> Option<real>, geo: GeometryOps, codec: UbidCodec)
    returns (r1: OsmRecord, r2: OsmRecord, r3: OsmRecord, r4: OsmRecord)
    requires Rewritten(result, parseFloat, geo, codec).Ok?
    ensures ConvertBoundingBox(result, parseFloat) == Ok(r1) && ConvertAddress(r1) == Ok(r2) && ForceOsmId(r2) == Ok(r3)
    ensures r4 == MoveOsmPolygon(NormalizeType(r3)) && AddUbidFields(r4, geo, codec) == Rewritten(result, parseFloat, geo, codec)
  {
    r1 := ConvertBoundingBox(result, parseFloat).value;
    r2 := ConvertAddress(r1).value;
    r3 := ForceOsmId(r2).value;
    r4 := MoveOsmPolygon(NormalizeType(r3));
  }

  /**
   * A rewritten record has no boundingbox, address or osm_polygon, an integer osm_id, no type
   * yes, and the three UBID fields.
   */
  lemma RewrittenKeys(result: OsmRecord, parseFloat: string -> Option<real>, geo: GeometryOps, codec: UbidCodec)
    requires Rewritten(result, parseFloat, geo, codec).Ok?
    ensures var r := Rewritten(result, parseFloat, geo, codec).value;
      && "boundingbox" !in r && "address" !in r && "osm_polygon" !in r
      && "osm_id" in r && r["osm_id"].VInt?
      && ("type" in r ==> r["type"] != VStr("yes"))
      && "ubid" in r && "ubid_bounding_box" in r && "ubid_centroid" in r
  {
    var r1, r2, r3, r4 := RewrittenSteps(result, parseFloat, geo, codec);
    OsmKeysApart();
    assert "boundingbox" !in r1;
    if "address" in r1 {
      ConvertAddressEffect(r1);
    }
    assert "boundingbox" !in r2 && "address" !in r2;
    assert "boundingbox" !in r4 && "address" !in r4 && "osm_id" in r4 && r4["osm_id"].VInt?;
    assert "type" in r4 ==> r4["type"] != VStr("yes");
  }

  /** geometry is osm_polygon when the record had one. */
  lemma RewrittenGeometry(result: OsmRecord, parseFloat: string -> Option<real>, geo: GeometryOps, codec: UbidCodec)
    requires Rewritten(result, parseFloat, geo, codec).Ok? && "osm_polygon" in result
    ensures var r := Rewritten(result, parseFloat, geo, codec).value;
      "geometry" in r && r["geometry"] == result["osm_polygon"]
  {
    var r1, r2, r3, r4 := RewrittenSteps(result, parseFloat, geo, codec);
    OsmKeysApart();
    if "address" in r1 {
      ConvertAddressEffect(r1);
    }
    assert r1["osm_polygon"] == result["osm_polygon"];
    assert r2["osm_polygon"] == result["osm_polygon"];
    assert NormalizeType(r3)["osm_polygon"] == result["osm_polygon"];
    assert r4["geometry"] == result["osm_polygon"];
  }

  /** Every osm_* address field is present with address.get(key, None). */
  lemma RewrittenAddress(result: OsmRecord, parseFloat: string -> Option<real>, geo: GeometryOps, codec: UbidCodec, i: nat)
    requires Rewritten(result, parseFloat, geo, codec).Ok? && "address" in result && i < |AddressKeys|
    ensures var r := Rewritten(result, parseFloat, geo, codec).value;
      && "osm_" + AddressKeys[i] in r
      && result["address"].VDict?
      && r["osm_" + AddressKeys[i]] == AddressValue(result["address"].entries, AddressKeys[i])
  {
    var r1, r2, r3, r4 := RewrittenSteps(result, parseFloat, geo, codec);
    var key := "osm_" + AddressKeys[i];
    assert key in OsmKeys(AddressKeys);
    OsmKeysApart();
    assert r1["address"] == result["address"];
    ConvertAddressEffect(r1);
    assert r3[key] == r2[key];
    assert NormalizeType(r3)[key] == r2[key];
    assert r4[key] == r2[key];
  }

  /** `f` applied to each element in order; the first error ends the run. */
  function MapResults<A, B>(xs: seq<A>, f: A -> Result<B, OsmError>): (r: Result<seq<B>, OsmError>)
    ensures r.Ok? ==> |r.value| == |xs|
  {
    if xs == [] then Ok([])
    else match MapResults(xs[..|xs| - 1], f)
      case Err(e) => Err(e)
      case Ok(done) =>
        match f(xs[|xs| - 1])
        case Err(e) => Err(e)
        case Ok(last) => Ok(done + [last])
  }

  /** The run succeeds exactly when every element does, and then holds each element's result. */
  lemma {:induction false} MapResultsPointwise<A, B>(xs: seq<A>, f: A -> Result<B, OsmError>)
    ensures MapResults(xs, f).Ok? <==> forall i :: 0 <= i < |xs| ==> f(xs[i]).Ok?
    ensures MapResults(xs, f).Ok? ==> forall i :: 0 <= i < |xs| ==> MapResults(xs, f).value[i] == f(xs[i]).value
  {
    if xs != [] {
      var n := |xs| - 1;
      var prefix := xs[..n];
      MapResultsPointwise(prefix, f);
      assert forall i :: 0 <= i < n ==> prefix[i] == xs[i];
    }
  }

  /** A run that has failed on a prefix fails with the same error. */
  lemma {:induction false} MapResultsErrorPersists<A, B>(xs: seq<A>, f: A -> Result<B, OsmError>, k: nat)
    requires k <= |xs| && MapResults(xs[..k], f).Err?
    ensures MapResults(xs, f) == MapResults(xs[..k], f)
    decreases |xs| - k
  {
    if k < |xs| {
      assert xs[..k + 1][..k] == xs[..k];
      MapResultsErrorPersists(xs, f, k + 1);
    } else {
      assert xs[..k] == xs;
    }
  }

  /** The loop of lines 332-385: every record rewritten, or the first error. */
  function RewrittenAll(results: seq<OsmRecord>, parseFloat: string -> Option<real>, geo: GeometryOps, codec: UbidCodec)
    : Result<seq<OsmRecord>, OsmError>
  {
    MapResults(results, (x: OsmRecord) => Rewritten(x, parseFloat, geo, codec))
  }

  /**
   * process_dataframe_for_osm_buildings(geodataframe, method): the method is checked first; the
   * rows are then collected (the part that queries Nominatim and Overpass, here `collect`) and
   * the collected results rewritten.
   */
  method ProcessDataframeForOsmBuildings(methodName: string, collect: ProcessingMethod -> (seq<OsmRecord>, seq<string>),
                                         parseFloat: string -> Option<real>, geo: GeometryOps, codec: UbidCodec)
    returns (r: Result<(seq<OsmRecord>, seq<string>), OsmError>)
    ensures ValidateMethod(methodName).Err? ==> r == Err(ValidateMethod(methodName).error)
    ensures ValidateMethod(methodName).Ok? ==>
      var (results, errors) := collect(ValidateMethod(methodName).value);
      match RewrittenAll(results, parseFloat, geo, codec)
      case Err(e) => r == Err(e)
      case Ok(rewritten) => r == Ok((rewritten, errors))
  {
    var m := ValidateMethod(methodName);
    if m.Err? {
      return Err(m.error);
    }
    var (results, errorProcessing) := collect(m.value);
    var rewritten: seq<OsmRecord> := [];
    for i := 0 to |results|
      invariant RewrittenAll(results[..i], parseFloat, geo, codec) == Ok(rewritten)
    {
      assert results[..i + 1][..i] == results[..i];
      var one := RewriteResult(results[i], parseFloat, geo, codec);
      if one.Err? {
        MapResultsErrorPersists(results, (x: OsmRecord) => Rewritten(x, parseFloat, geo, codec), i + 1);
        return Err(one.error);
      }
      rewritten := rewritten + [one.value];
    }
    assert results[..|results|] == results;
    return Ok((rewritten, errorProcessing));
  }
}
