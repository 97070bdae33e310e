/**
 * utils/geocode_addresses.py: batch geocoding through MapQuest and the quality filter
 * applied to each returned result. The HTTP request is a parameter, `post`, that maps a
 * chunk of locations to the response MapQuest gives for it.
 */
module GeocodeAddresses {
  import opened Wrappers
  import opened Slicing
  import opened Chunking
  import opened Flattening

  /** utils/common.py: an address to geocode. */
  datatype Location = Location(street: string, city: string, state: string)

  datatype LatLng = LatLng(lat: real, lng: real)

  /**
   * One entry of a result's `locations`. Keys that may be absent are Options; the
   * `adminArea{i}Type` and `adminArea{i}` keys are maps from i to their value.
   */
  datatype GeocodedLocation = GeocodedLocation(
    geocodeQualityCode: string,
    displayLatLng: LatLng,
    street: Option<string>,
    postalCode: Option<string>,
    sideOfStreet: Option<string>,
    adminAreaType: map<int, string>,
    adminArea: map<int, string>)

  datatype GeocodeResult = GeocodeResult(locations: seq<GeocodedLocation>)

  /** A value of an output record; Missing is Python's None. */
  datatype Field = Missing | Text(text: string) | Number(number: real)

  type Record = map<string, Field>

  function OptionalText(o: Option<string>): Field
  {
    match o
    case Some(s) => Text(s)
    case None => Missing
  }

  /** Lower-casing of the `adminArea{i}Type` names, which are ASCII words: A-Z become a-z. */
  function LowerAscii(s: string): (r: string)
    ensures |r| == |s|
    ensures forall i :: 0 <= i < |s| ==> r[i] == if 'A' <= s[i] <= 'Z' then (s[i] as int + 32) as char else s[i]
  {
    seq(|s|, i requires 0 <= i < |s| => if 'A' <= s[i] <= 'Z' then (s[i] as int + 32) as char else s[i])
  }

  /** Characters 0-1 of the quality code, `quality[0:2]`. */
  function Granularity(quality: string): string
  {
    Slice(quality, 0, 2)
  }

  /** Characters 2-4 of the quality code, `quality[2:5]`. */
  function Confidence(quality: string): string
  {
    Slice(quality, 2, 5)
  }

  /** Granularity P1 or L1, and no C or X among the confidence ratings. */
  predicate AcceptableQuality(quality: string)
  {
    var granularity, confidence := Granularity(quality), Confidence(quality);
    (granularity == "P1" || granularity == "L1") && !('C' in confidence || 'X' in confidence)
  }

  /** `adminArea{i}`, None when absent. */
  function AdminValue(loc: GeocodedLocation, i: int): Field
  {
    if i in loc.adminArea then Text(loc.adminArea[i]) else Missing
  }

  /** The admin areas gathered by the loop over i = 1 .. n (specification of the loop in ProcessResult). */
  function AdminAreas(loc: GeocodedLocation, n: nat): Record
  {
    if n == 0 then map[]
    else
      var earlier := AdminAreas(loc, n - 1);
      if n in loc.adminAreaType then earlier[LowerAscii(loc.adminAreaType[n]) := AdminValue(loc, n)] else earlier
  }

  /** The six fixed keys of an accepted record. */
  function BaseRecord(loc: GeocodedLocation): Record
  {
    map[
      "quality" := Text(loc.geocodeQualityCode),
      "address" := OptionalText(loc.street),
      "longitude" := Number(loc.displayLatLng.lng),
      "latitude" := Number(loc.displayLatLng.lat),
      "postal_code" := OptionalText(loc.postalCode),
      "side_of_street" := OptionalText(loc.sideOfStreet)]
  }

  /** What _process_result returns for one result (specification of ProcessResult). */
  function Processed(result: GeocodeResult): Record
  {
    if |result.locations| != 1 then map["quality" := Text("Ambiguous")]
    else
      var loc := result.locations[0];
      if AcceptableQuality(loc.geocodeQualityCode) then BaseRecord(loc) + AdminAreas(loc, 6)
      else map["quality" := Text(loc.geocodeQualityCode)]
  }

  /** _process_result. */
  method ProcessResult(result: GeocodeResult) returns (record: Record)
    ensures record == Processed(result)
  {
    if |result.locations| != 1 {
      return map["quality" := Text("Ambiguous")];
    }
    var loc := result.locations[0];
    var quality := loc.geocodeQualityCode;
    var granularityLevel := quality[0..Min(2, |quality|)];
    var confidenceLevel := if |quality| > 2 then quality[2..Min(5, |quality|)] else "";
    var isAcceptableGranularity := granularityLevel == "P1" || granularityLevel == "L1";
    var isAcceptableConfidence := !('C' in confidenceLevel || 'X' in confidenceLevel);
    assert granularityLevel == Granularity(quality) && confidenceLevel == Confidence(quality);
    if isAcceptableConfidence && isAcceptableGranularity {
      var adminAreas: Record := map[];
      for i := 1 to 7
        invariant adminAreas == AdminAreas(loc, i - 1)
      {
        if i !in loc.adminAreaType {
          continue;
        }
        adminAreas := adminAreas[LowerAscii(loc.adminAreaType[i]) := AdminValue(loc, i)];
      }
      record := BaseRecord(loc) + adminAreas;
    } else {
      record := map["quality" := Text(quality)];
    }
  }

  /** The quality rule read character by character: 'P1' or 'L1' first, and no 'C' or 'X' in positions 2 to 4. */
  lemma AcceptableQualityChars(q: string)
    ensures AcceptableQuality(q) <==>
      && |q| >= 2 && (q[0] == 'P' || q[0] == 'L') && q[1] == '1'
      && forall k :: 2 <= k < |q| && k < 5 ==> q[k] != 'C' && q[k] != 'X'
  {
    var g, c := Granularity(q), Confidence(q);
    assert |q| >= 2 ==> g == q[..2];
    assert forall k :: 2 <= k < |q| && k < 5 ==> c[k - 2] == q[k];
    if AcceptableQuality(q) {
      assert |g| == 2;
      forall k | 2 <= k < |q| && k < 5
        ensures q[k] != 'C' && q[k] != 'X'
      {
        assert c[k - 2] in c;
      }
    }
  }

  /** A result whose `locations` does not have exactly one entry gives exactly {"quality": "Ambiguous"}. */
  lemma AmbiguousResult(result: GeocodeResult)
    requires |result.locations| != 1
    ensures Processed(result).Keys == {"quality"} && Processed(result)["quality"] == Text("Ambiguous")
  {
  }

  /** A rejected quality code gives a record with only the `quality` key, holding that code. */
  lemma RejectedResult(result: GeocodeResult)
    requires |result.locations| == 1 && !AcceptableQuality(result.locations[0].geocodeQualityCode)
    ensures Processed(result).Keys == {"quality"}
    ensures Processed(result)["quality"] == Text(result.locations[0].geocodeQualityCode)
  {
  }

  /** The keys of the admin areas: the lower-cased types present for i in 1 .. n. */
  lemma {:induction false} AdminAreaKeys(loc: GeocodedLocation, n: nat, key: string)
    ensures key in AdminAreas(loc, n) <==>
      exists i :: 1 <= i <= n && i in loc.adminAreaType && LowerAscii(loc.adminAreaType[i]) == key
  {
    if n > 0 {
      AdminAreaKeys(loc, n - 1, key);
    }
  }

  /** On a duplicate lower-cased type the largest i wins. */
  lemma {:induction false} AdminAreaLaterWins(loc: GeocodedLocation, n: nat, i: int)
    requires 1 <= i <= n && i in loc.adminAreaType
    requires forall j :: i < j <= n && j in loc.adminAreaType ==>
      LowerAscii(loc.adminAreaType[j]) != LowerAscii(loc.adminAreaType[i])
    ensures LowerAscii(loc.adminAreaType[i]) in AdminAreas(loc, n)
    ensures AdminAreas(loc, n)[LowerAscii(loc.adminAreaType[i])] == AdminValue(loc, i)
  {
    if i < n {
      AdminAreaLaterWins(loc, n - 1, i);
    }
  }

  /**
   * An accepted code gives quality, address, longitude, latitude, postal_code and side_of_street,
   * merged with the admin areas; an admin key overrides a base key of the same name.
   */
  lemma AcceptedResult(result: GeocodeResult, key: string)
    requires |result.locations| == 1
    requires AcceptableQuality(result.locations[0].geocodeQualityCode)
    ensures var loc, r := result.locations[0], Processed(result);
      && (key in r <==> key in BaseRecord(loc) || key in AdminAreas(loc, 6))
      && (key in AdminAreas(loc, 6) ==> r[key] == AdminAreas(loc, 6)[key])
      && (key in BaseRecord(loc) && key !in AdminAreas(loc, 6) ==> r[key] == BaseRecord(loc)[key])
  {
  }

  lemma BaseRecordKeys(loc: GeocodedLocation)
    ensures BaseRecord(loc).Keys == {"quality", "address", "longitude", "latitude", "postal_code", "side_of_street"}
  {
  }

  /** What MapQuest answers for one chunk; `results` is None where `response.json().get("results")` cannot be used. */
  datatype Response = Response(statusCode: int, results: Option<seq<GeocodeResult>>)

  datatype GeocodeError =
    | MapQuestApiKeyError       // the key is invalid or at its limit
    | ResponseError(statusCode: int)  // the parse error re-raised for any other status

  /** The results of one chunk, or the error raised for it. */
  function ChunkResults(response: Response): (r: Result<seq<GeocodeResult>, GeocodeError>)
    ensures response.statusCode == 401 ==> r == Err(MapQuestApiKeyError)
    ensures response.statusCode == 403 && response.results.None? ==> r == Err(MapQuestApiKeyError)
    ensures response.statusCode != 401 && response.results.Some? ==> r == Ok(response.results.value)
    ensures response.statusCode != 401 && response.statusCode != 403 && response.results.None? ==>
      r == Err(ResponseError(response.statusCode))
  {
    if response.statusCode == 401 then Err(MapQuestApiKeyError)
    else match response.results
      case Some(rs) => Ok(rs)
      case None => if response.statusCode == 403 then Err(MapQuestApiKeyError) else Err(ResponseError(response.statusCode))
  }

  /** The results of the chunks, concatenated in order, or the error of the first chunk that fails. */
  function CollectResults(chunks: seq<seq<Location>>, post: seq<Location> -> Response): Result<seq<GeocodeResult>, GeocodeError>
  {
    if chunks == [] then Ok([])
    else
      match CollectResults(chunks[..|chunks| - 1], post)
      case Err(e) => Err(e)
      case Ok(earlier) =>
        match ChunkResults(post(chunks[|chunks| - 1]))
        case Err(e) => Err(e)
        case Ok(more) => Ok(earlier + more)
  }

  /** geocode_addresses: one request per chunk of at most 100 locations, then _process_result on every result. */
  method Geocode(locations: seq<Location>, post: seq<Location> -> Response) returns (r: Result<seq<Record>, GeocodeError>)
    ensures var collected := CollectResults(Chunk(locations), post);
      && (r.Ok? <==> collected.Ok?)
      && (r.Err? ==> r.error == collected.error)
      && (r.Ok? ==> |r.value| == |collected.value|
                    && forall i :: 0 <= i < |r.value| ==> r.value[i] == Processed(collected.value[i]))
  {
    var chunks := Chunk(locations);
    var results: seq<GeocodeResult> := [];
    var k := 0;
    while k < |chunks|
      invariant 0 <= k <= |chunks|
      invariant CollectResults(chunks[..k], post) == Ok(results)
    {
      assert chunks[..k + 1][..k] == chunks[..k];
      var response := post(chunks[k]);
      var got := ChunkResults(response);
      if got.Err? {
        assert chunks[..k + 1][..k] == chunks[..k];
        ghost var j := k + 1;
        CollectErrorPersists(chunks, post, j);
        return Err(got.error);
      }
      results := results + got.value;
      k := k + 1;
    }
    assert chunks[..k] == chunks;
    var records: seq<Record> := [];
    var i := 0;
    while i < |results|
      invariant 0 <= i <= |results|
      invariant |records| == i
      invariant forall j :: 0 <= j < i ==> records[j] == Processed(results[j])
    {
      var record := ProcessResult(results[i]);
      records := records + [record];
      i := i + 1;
    }
    return Ok(records);
  }

  /** Once a prefix of the chunks fails, the whole batch fails with the same error. */
  lemma {:induction false} CollectErrorPersists(chunks: seq<seq<Location>>, post: seq<Location> -> Response, k: nat)
    requires k <= |chunks| && CollectResults(chunks[..k], post).Err?
    ensures CollectResults(chunks, post) == CollectResults(chunks[..k], post)
    decreases |chunks| - k
  {
    if k < |chunks| {
      assert chunks[..k + 1][..k] == chunks[..k];
      CollectErrorPersists(chunks, post, k + 1);
    } else {
      assert chunks[..k] == chunks;
    }
  }

  /** The result list of a successful batch is each chunk's results, concatenated in chunk order. */
  lemma {:induction false} CollectResultsInChunkOrder(chunks: seq<seq<Location>>, post: seq<Location> -> Response)
    requires forall i :: 0 <= i < |chunks| ==> ChunkResults(post(chunks[i])).Ok?
    ensures CollectResults(chunks, post).Ok?
    ensures CollectResults(chunks, post).value
      == Flatten(seq(|chunks|, i requires 0 <= i < |chunks| => ChunkResults(post(chunks[i])).value))
  {
    var per := seq(|chunks|, i requires 0 <= i < |chunks| => ChunkResults(post(chunks[i])).value);
    if chunks != [] {
      var n := |chunks| - 1;
      CollectResultsInChunkOrder(chunks[..n], post);
      var perPrefix := seq(n, i requires 0 <= i < n => ChunkResults(post(chunks[..n][i])).value);
      assert per == perPrefix + [per[n]];
      FlattenSnoc(perPrefix, per[n]);
    }
  }

  /** A batch fails exactly when some chunk fails, and then with the error of the first failing chunk. */
  lemma {:induction false} CollectResultsFirstError(chunks: seq<seq<Location>>, post: seq<Location> -> Response, k: nat)
    requires k < |chunks| && ChunkResults(post(chunks[k])).Err?
    requires forall i :: 0 <= i < k ==> ChunkResults(post(chunks[i])).Ok?
    ensures CollectResults(chunks, post) == Err(ChunkResults(post(chunks[k])).error)
  {
    var prefix := chunks[..k];
    assert forall i :: 0 <= i < |prefix| ==> ChunkResults(post(prefix[i])).Ok?;
    CollectResultsInChunkOrder(prefix, post);
    assert chunks[..k + 1][..k] == prefix;
    CollectErrorPersists(chunks, post, k + 1);
  }
}
