/**
 * utils/update_quadkeys.py: make sure the footprint file of every requested quadkey is in
 * the local cache, looking its URL up in the index file and re-downloading a cached file
 * only when its size differs from the remote Content-Length. CSV parsing is the abstract
 * `parseIndex`.
 */
module QuadkeyFiles {
  import opened Wrappers
  import opened Decimal
  import opened LocalStorage
  import opened DatasetLinks

  /** One row of dataset-links.csv: the QuadKey column (read as an integer) and the Url column. */
  datatype IndexRow = IndexRow(quadKey: int, url: string)

  datatype QuadkeyError =
    | IndexFileMissing            // pd.read_csv finds no dataset-links.csv
    | MultipleRows(quadkey: int)  // "Multiple rows found for QuadKey"
    | QuadkeyNotFound(quadkey: int)  // "QuadKey not found in dataset"

  /** `save_directory / f"{quadkey}.geojsonl.gz"`. */
  function TileFile(saveDirectory: string, quadkey: int): string
  {
    JoinPath(saveDirectory, IntToString(quadkey) + ".geojsonl.gz")
  }

  /** `df[df["QuadKey"] == quadkey]`: the index rows for one quadkey, in file order. */
  function MatchingRows(index: seq<IndexRow>, quadkey: int): seq<IndexRow>
  {
    if index == [] then []
    else (if index[0].quadKey == quadkey then [index[0]] else []) + MatchingRows(index[1..], quadkey)
  }

  /** The URL for a quadkey: the Url of its only row, or the integrity error of lines 27-30. */
  function LookupUrl(index: seq<IndexRow>, quadkey: int): (r: Result<string, QuadkeyError>)
    ensures r.Err? ==> r.error == MultipleRows(quadkey) || r.error == QuadkeyNotFound(quadkey)
  {
    var rows := MatchingRows(index, quadkey);
    if |rows| == 1 then Ok(rows[0].url)
    else if |rows| > 1 then Err(MultipleRows(quadkey))
    else Err(QuadkeyNotFound(quadkey))
  }

  /** The filtered rows are the index rows that carry the quadkey. */
  lemma {:induction false} MatchingRowsMembers(index: seq<IndexRow>, quadkey: int)
    ensures forall row :: row in MatchingRows(index, quadkey) <==> row in index && row.quadKey == quadkey
  {
    if index != [] {
      MatchingRowsMembers(index[1..], quadkey);
      assert index == [index[0]] + index[1..];
    }
  }

  /** No row is filtered exactly when no index row carries the quadkey. */
  lemma {:induction false} NoMatchingRows(index: seq<IndexRow>, quadkey: int)
    ensures |MatchingRows(index, quadkey)| == 0 <==> forall i :: 0 <= i < |index| ==> index[i].quadKey != quadkey
  {
    if index != [] {
      NoMatchingRows(index[1..], quadkey);
      if index[0].quadKey != quadkey && |MatchingRows(index, quadkey)| != 0 {
        var i :| 0 <= i < |index[1..]| && index[1..][i].quadKey == quadkey;
        assert index[i + 1].quadKey == quadkey;
      }
    }
  }

  /** Two or more rows are filtered exactly when two distinct index rows carry the quadkey. */
  lemma {:induction false} SeveralMatchingRows(index: seq<IndexRow>, quadkey: int)
    ensures |MatchingRows(index, quadkey)| >= 2 <==>
      exists i, j :: 0 <= i < j < |index| && index[i].quadKey == quadkey && index[j].quadKey == quadkey
  {
    if index != [] {
      var rest := index[1..];
      SeveralMatchingRows(rest, quadkey);
      NoMatchingRows(rest, quadkey);
      if |MatchingRows(index, quadkey)| >= 2 {
        if index[0].quadKey == quadkey {
          var j :| 0 <= j < |rest| && rest[j].quadKey == quadkey;
          assert index[0].quadKey == quadkey && index[j + 1].quadKey == quadkey;
        } else {
          var i, j :| 0 <= i < j < |rest| && rest[i].quadKey == quadkey && rest[j].quadKey == quadkey;
          assert index[i + 1].quadKey == quadkey && index[j + 1].quadKey == quadkey;
        }
      }
    }
  }

  /** A single row carrying the quadkey yields its Url; several give MultipleRows; none gives QuadkeyNotFound. */
  lemma LookupUrlCases(index: seq<IndexRow>, quadkey: int)
    ensures LookupUrl(index, quadkey) == Err(QuadkeyNotFound(quadkey)) <==>
      forall i :: 0 <= i < |index| ==> index[i].quadKey != quadkey
    ensures LookupUrl(index, quadkey) == Err(MultipleRows(quadkey)) <==>
      exists i, j :: 0 <= i < j < |index| && index[i].quadKey == quadkey && index[j].quadKey == quadkey
    ensures LookupUrl(index, quadkey).Ok? ==>
      exists row :: row in index && row.quadKey == quadkey && LookupUrl(index, quadkey).value == row.url
  {
    NoMatchingRows(index, quadkey);
    SeveralMatchingRows(index, quadkey);
    MatchingRowsMembers(index, quadkey);
    if |MatchingRows(index, quadkey)| == 1 {
      assert MatchingRows(index, quadkey)[0] in MatchingRows(index, quadkey);
    }
  }

  /** A cached tile file is re-downloaded when it is missing or its size differs from the remote Content-Length. */
  predicate TileNeedsDownload(files: map<string, Bytes>, path: string, remote: RemoteResource)
  {
    path !in files || |files[path]| != remote.contentLength
  }

  /** The local files and the record of downloads. */
  datatype CacheState = CacheState(files: map<string, Bytes>, downloads: seq<string>)

  /** One pass of the loop body for one quadkey: the lookup, then the download decision. */
  function RefreshTile(st: CacheState, index: seq<IndexRow>, quadkey: int, remote: string -> RemoteResource,
                       saveDirectory: string): (r: Result<CacheState, QuadkeyError>)
    ensures LookupUrl(index, quadkey).Err? ==> r == Err(LookupUrl(index, quadkey).error)
    ensures LookupUrl(index, quadkey).Ok? ==>
      (var url, path := LookupUrl(index, quadkey).value, TileFile(saveDirectory, quadkey);
       r == Ok(if TileNeedsDownload(st.files, path, remote(url))
               then CacheState(st.files[path := remote(url).body], st.downloads + [url])
               else st))
  {
    match LookupUrl(index, quadkey)
    case Err(e) => Err(e)
    case Ok(url) =>
      var path := TileFile(saveDirectory, quadkey);
      if TileNeedsDownload(st.files, path, remote(url))
      then Ok(CacheState(st.files[path := remote(url).body], st.downloads + [url]))
      else Ok(st)
  }

  /** The outcome of the loop over `quadkeys` in list order, and the state it leaves; the first error stops it. */
  function RefreshTiles(st: CacheState, index: seq<IndexRow>, quadkeys: seq<int>, remote: string -> RemoteResource,
                        saveDirectory: string): (Result<(), QuadkeyError>, CacheState)
  {
    if quadkeys == [] then (Ok(()), st)
    else
      var (outcome, mid) := RefreshTiles(st, index, quadkeys[..|quadkeys| - 1], remote, saveDirectory);
      if outcome.Err? then (outcome, mid)
      else match RefreshTile(mid, index, quadkeys[|quadkeys| - 1], remote, saveDirectory)
        case Err(e) => (Err(e), mid)
        case Ok(next) => (Ok(()), next)
  }

  /** The loop body of lines 22-39 for one quadkey, on the store. */
  method RefreshQuadkey(store: LocalStore, df: seq<IndexRow>, quadkey: int, remote: string -> RemoteResource,
                        saveDirectory: string)
    returns (r: Result<(), QuadkeyError>)
    modifies store
    ensures var step := RefreshTile(CacheState(old(store.files), old(store.downloads)), df, quadkey, remote, saveDirectory);
      match step
      case Err(e) => r == Err(e) && store.files == old(store.files) && store.downloads == old(store.downloads)
      case Ok(next) => r == Ok(()) && CacheState(store.files, store.downloads) == next
  {
    var download := true;
    var quadkeyFile := TileFile(saveDirectory, quadkey);
    var rows := MatchingRows(df, quadkey);
    var url;
    if |rows| == 1 {
      url := rows[0].url;
    } else if |rows| > 1 {
      return Err(MultipleRows(quadkey));
    } else {
      return Err(QuadkeyNotFound(quadkey));
    }
    if quadkeyFile in store.files {
      var localSize := |store.files[quadkeyFile]|;
      var remoteSize := remote(url).contentLength;
      download := localSize != remoteSize;
    }
    if download {
      store.Download(url, quadkeyFile, remote);
    }
    return Ok(());
  }

  /** update_quadkeys(quadkeys, save_directory). */
  method UpdateQuadkeys(store: LocalStore, quadkeys: seq<int>, remote: string -> RemoteResource,
                        parseIndex: Bytes -> seq<IndexRow>, saveDirectory: string := DefaultSaveDirectory)
    returns (r: Result<(), QuadkeyError>)
    modifies store
    ensures LinksFile(saveDirectory) !in old(store.files) ==>
      r == Err(IndexFileMissing) && store.files == old(store.files) && store.downloads == old(store.downloads)
    ensures LinksFile(saveDirectory) in old(store.files) ==>
      (r, CacheState(store.files, store.downloads))
        == RefreshTiles(CacheState(old(store.files), old(store.downloads)),
                        parseIndex(old(store.files)[LinksFile(saveDirectory)]), quadkeys, remote, saveDirectory)
  {
    if LinksFile(saveDirectory) !in store.files {
      return Err(IndexFileMissing);
    }
    var df := parseIndex(store.files[LinksFile(saveDirectory)]);
    ghost var start := CacheState(store.files, store.downloads);
    var k := 0;
    while k < |quadkeys|
      invariant 0 <= k <= |quadkeys|
      invariant RefreshTiles(start, df, quadkeys[..k], remote, saveDirectory) == (Ok(()), CacheState(store.files, store.downloads))
    {
      assert quadkeys[..k + 1][..k] == quadkeys[..k];
      var one := RefreshQuadkey(store, df, quadkeys[k], remote, saveDirectory);
      if one.Err? {
        RefreshTilesErrorPersists(start, df, quadkeys, remote, saveDirectory, k + 1);
        return one;
      }
      k := k + 1;
    }
    assert quadkeys[..k] == quadkeys;
    return Ok(());
  }

  /** Once a prefix of the quadkeys fails, the run ends with that error and that state. */
  lemma {:induction false} RefreshTilesErrorPersists(st: CacheState, index: seq<IndexRow>, quadkeys: seq<int>,
                                                     remote: string -> RemoteResource, saveDirectory: string, k: nat)
    requires k <= |quadkeys| && RefreshTiles(st, index, quadkeys[..k], remote, saveDirectory).0.Err?
    ensures RefreshTiles(st, index, quadkeys, remote, saveDirectory) == RefreshTiles(st, index, quadkeys[..k], remote, saveDirectory)
    decreases |quadkeys| - k
  {
    if k < |quadkeys| {
      assert quadkeys[..k + 1][..k] == quadkeys[..k];
      RefreshTilesErrorPersists(st, index, quadkeys, remote, saveDirectory, k + 1);
    } else {
      assert quadkeys[..k] == quadkeys;
    }
  }

  /** Distinct quadkeys are cached under distinct file names. */
  lemma TileFileInjective(saveDirectory: string, a: int, b: int)
    requires TileFile(saveDirectory, a) == TileFile(saveDirectory, b)
    ensures a == b
  {
    var p, sa, sb := saveDirectory + "/", IntToString(a), IntToString(b);
    var fa, fb := TileFile(saveDirectory, a), TileFile(saveDirectory, b);
    assert fa == p + sa + ".geojsonl.gz";
    assert fb == p + sb + ".geojsonl.gz";
    assert |sa| == |sb|;
    assert sa == fa[|p|..|p| + |sa|];
    assert sb == fb[|p|..|p| + |sb|];
    IntToStringInjective(a, b);
  }

  /** A failed run stops at the first quadkey whose lookup fails, in the state the quadkeys before it left. */
  lemma {:induction false} RefreshTilesFailure(st: CacheState, index: seq<IndexRow>, quadkeys: seq<int>,
                                               remote: string -> RemoteResource, saveDirectory: string)
    returns (k: nat)
    requires RefreshTiles(st, index, quadkeys, remote, saveDirectory).0.Err?
    ensures k < |quadkeys|
    ensures RefreshTiles(st, index, quadkeys[..k], remote, saveDirectory)
              == (Ok(()), RefreshTiles(st, index, quadkeys, remote, saveDirectory).1)
    ensures LookupUrl(index, quadkeys[k]).Err?
    ensures Err(LookupUrl(index, quadkeys[k]).error) == RefreshTiles(st, index, quadkeys, remote, saveDirectory).0
  {
    var n := |quadkeys| - 1;
    var prefix := quadkeys[..n];
    if RefreshTiles(st, index, prefix, remote, saveDirectory).0.Err? {
      k := RefreshTilesFailure(st, index, prefix, remote, saveDirectory);
      assert prefix[..k] == quadkeys[..k];
    } else {
      k := n;
    }
  }

  /** A run writes only the files of the quadkeys it was given and only appends to the download record. */
  lemma {:induction false} RefreshTilesFrame(st: CacheState, index: seq<IndexRow>, quadkeys: seq<int>,
                                             remote: string -> RemoteResource, saveDirectory: string, path: string)
    requires path in st.files && forall q :: q in quadkeys ==> path != TileFile(saveDirectory, q)
    ensures var end := RefreshTiles(st, index, quadkeys, remote, saveDirectory).1;
      path in end.files && end.files[path] == st.files[path]
      && |st.downloads| <= |end.downloads| && end.downloads[..|st.downloads|] == st.downloads
  {
    if quadkeys != [] {
      var n := |quadkeys| - 1;
      RefreshTilesFrame(st, index, quadkeys[..n], remote, saveDirectory, path);
      assert quadkeys[n] in quadkeys;
      var mid := RefreshTiles(st, index, quadkeys[..n], remote, saveDirectory).1;
      forall url: string
        ensures (mid.downloads + [url])[..|st.downloads|] == st.downloads
      {
        assert (mid.downloads + [url])[..|mid.downloads|] == mid.downloads;
      }
    }
  }

  /** A successful run leaves a cached file for every quadkey it was given, and removes no file. */
  lemma {:induction false} RefreshTilesCachesAll(st: CacheState, index: seq<IndexRow>, quadkeys: seq<int>,
                                                 remote: string -> RemoteResource, saveDirectory: string)
    requires RefreshTiles(st, index, quadkeys, remote, saveDirectory).0.Ok?
    ensures forall q :: q in quadkeys ==> TileFile(saveDirectory, q) in RefreshTiles(st, index, quadkeys, remote, saveDirectory).1.files
    ensures st.files.Keys <= RefreshTiles(st, index, quadkeys, remote, saveDirectory).1.files.Keys
  {
    if quadkeys != [] {
      var n := |quadkeys| - 1;
      var prefix := quadkeys[..n];
      RefreshTilesCachesAll(st, index, prefix, remote, saveDirectory);
      var mid := RefreshTiles(st, index, prefix, remote, saveDirectory).1;
      var step := RefreshTile(mid, index, quadkeys[n], remote, saveDirectory);
      RefreshTileCaches(mid, index, quadkeys[n], remote, saveDirectory);
      assert RefreshTiles(st, index, quadkeys, remote, saveDirectory).1 == step.value;
      forall q | q in quadkeys
        ensures TileFile(saveDirectory, q) in step.value.files
      {
        if q != quadkeys[n] {
          var i :| 0 <= i < |quadkeys| && quadkeys[i] == q;
          assert prefix[i] == q;
        }
      }
    }
  }

  /** One successful step caches its own tile and removes no file. */
  lemma RefreshTileCaches(st: CacheState, index: seq<IndexRow>, quadkey: int, remote: string -> RemoteResource,
                          saveDirectory: string)
    requires RefreshTile(st, index, quadkey, remote, saveDirectory).Ok?
    ensures TileFile(saveDirectory, quadkey) in RefreshTile(st, index, quadkey, remote, saveDirectory).value.files
    ensures st.files.Keys <= RefreshTile(st, index, quadkey, remote, saveDirectory).value.files.Keys
  {
  }

  /** The remote serves bodies of the length its Content-Length header announces. */
  ghost predicate ConsistentRemote(remote: string -> RemoteResource)
  {
    forall url :: |remote(url).body| == remote(url).contentLength
  }

  /** Every listed quadkey has an index row and a cached file of the announced remote size. */
  ghost predicate TilesCurrent(files: map<string, Bytes>, index: seq<IndexRow>, quadkeys: seq<int>,
                               remote: string -> RemoteResource, saveDirectory: string)
  {
    forall q :: q in quadkeys ==>
      LookupUrl(index, q).Ok? && !TileNeedsDownload(files, TileFile(saveDirectory, q), remote(LookupUrl(index, q).value))
  }

  /** After a successful run against a consistent remote every requested tile is cached and current. */
  lemma {:induction false} RefreshTilesMakesCurrent(st: CacheState, index: seq<IndexRow>, quadkeys: seq<int>,
                                                    remote: string -> RemoteResource, saveDirectory: string)
    requires ConsistentRemote(remote)
    requires RefreshTiles(st, index, quadkeys, remote, saveDirectory).0.Ok?
    ensures TilesCurrent(RefreshTiles(st, index, quadkeys, remote, saveDirectory).1.files, index, quadkeys, remote, saveDirectory)
  {
    if quadkeys != [] {
      var n := |quadkeys| - 1;
      var prefix, last := quadkeys[..n], quadkeys[n];
      RefreshTilesMakesCurrent(st, index, prefix, remote, saveDirectory);
      var mid := RefreshTiles(st, index, prefix, remote, saveDirectory).1;
      var end := RefreshTiles(st, index, quadkeys, remote, saveDirectory).1;
      var lastPath := TileFile(saveDirectory, last);
      forall q | q in quadkeys
        ensures LookupUrl(index, q).Ok? && !TileNeedsDownload(end.files, TileFile(saveDirectory, q), remote(LookupUrl(index, q).value))
      {
        if q == last {
        } else {
          assert q in prefix by {
            var i :| 0 <= i < |quadkeys| && quadkeys[i] == q;
            assert prefix[i] == q;
          }
          if TileFile(saveDirectory, q) == lastPath {
            TileFileInjective(saveDirectory, q, last);
          }
        }
      }
    }
  }

  /** When every requested tile is current a run downloads nothing and changes nothing. */
  lemma {:induction false} CurrentTilesNotDownloaded(st: CacheState, index: seq<IndexRow>, quadkeys: seq<int>,
                                                     remote: string -> RemoteResource, saveDirectory: string)
    requires TilesCurrent(st.files, index, quadkeys, remote, saveDirectory)
    ensures RefreshTiles(st, index, quadkeys, remote, saveDirectory) == (Ok(()), st)
  {
    if quadkeys != [] {
      var n := |quadkeys| - 1;
      var prefix := quadkeys[..n];
      assert TilesCurrent(st.files, index, prefix, remote, saveDirectory) by {
        forall q | q in prefix
          ensures q in quadkeys
        {
          var i :| 0 <= i < |prefix| && prefix[i] == q;
          assert quadkeys[i] == q;
        }
      }
      CurrentTilesNotDownloaded(st, index, prefix, remote, saveDirectory);
      assert quadkeys[n] in quadkeys;
    }
  }

  /** A second run right after a successful one downloads nothing. */
  lemma RefreshTilesIdempotent(st: CacheState, index: seq<IndexRow>, quadkeys: seq<int>,
                               remote: string -> RemoteResource, saveDirectory: string)
    requires ConsistentRemote(remote)
    requires RefreshTiles(st, index, quadkeys, remote, saveDirectory).0.Ok?
    ensures var end := RefreshTiles(st, index, quadkeys, remote, saveDirectory).1;
      RefreshTiles(end, index, quadkeys, remote, saveDirectory) == (Ok(()), end)
  {
    RefreshTilesMakesCurrent(st, index, quadkeys, remote, saveDirectory);
    var end := RefreshTiles(st, index, quadkeys, remote, saveDirectory).1;
    CurrentTilesNotDownloaded(end, index, quadkeys, remote, saveDirectory);
  }
}
