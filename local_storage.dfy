/**
 * The local file system the cache refresh routines work on, and the remote resources they
 * query. Files are a map from path to bytes; a remote URL answers a HEAD request with its
 * headers and a GET request with its body. The network itself is not modelled.
 */
module LocalStorage {

  type Bytes = seq<bv8>

  /** What the remote server reports for one URL. */
  datatype RemoteResource = RemoteResource(body: Bytes, contentLength: int, contentMd5: string)

  /** `save_directory / name`. */
  function JoinPath(directory: string, name: string): string
  {
    directory + "/" + name
  }

  /** The local store, with a record of the GET downloads made into it. */
  class LocalStore {
    var files: map<string, Bytes>
    ghost var downloads: seq<string>

    constructor (files: map<string, Bytes>)
      ensures this.files == files && downloads == []
    {
      this.files := files;
      downloads := [];
    }

    /** `open(path, "wb").write(requests.get(url).content)`. */
    method Download(url: string, path: string, remote: string -> RemoteResource)
      modifies this
      ensures files == old(files)[path := remote(url).body]
      ensures downloads == old(downloads) + [url]
    {
      files := files[path := remote(url).body];
      downloads := downloads + [url];
    }
  }
}
