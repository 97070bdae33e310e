/**
 * utils/update_dataset_links.py: keep the local copy of the quadkey index file
 * (dataset-links.csv) up to date, downloading it only when its fingerprint differs
 * from the remote Content-MD5 header. MD5 and base64 are the abstract `fingerprint`.
 */
module DatasetLinks {
  import opened LocalStorage

  const DatasetUrl: string := "https://minedbuildings.z5.web.core.windows.net/global-buildings/dataset-links.csv"

  const DefaultSaveDirectory: string := "data/quadkeys"

  function LinksFile(saveDirectory: string): string
  {
    JoinPath(saveDirectory, "dataset-links.csv")
  }

  /** The index file is fetched when there is no local copy or the local fingerprint differs from the remote one. */
  predicate LinksNeedDownload(files: map<string, Bytes>, saveDirectory: string,
                              remote: string -> RemoteResource, fingerprint: Bytes -> string)
  {
    var path := LinksFile(saveDirectory);
    path !in files || fingerprint(files[path]) != remote(DatasetUrl).contentMd5
  }

  /** The files after update_dataset_links. */
  function RefreshedLinks(files: map<string, Bytes>, saveDirectory: string,
                          remote: string -> RemoteResource, fingerprint: Bytes -> string): (r: map<string, Bytes>)
    ensures LinksNeedDownload(files, saveDirectory, remote, fingerprint) ==>
      r == files[LinksFile(saveDirectory) := remote(DatasetUrl).body]
    ensures !LinksNeedDownload(files, saveDirectory, remote, fingerprint) ==> r == files
  {
    if LinksNeedDownload(files, saveDirectory, remote, fingerprint)
    then files[LinksFile(saveDirectory) := remote(DatasetUrl).body]
    else files
  }

  /** update_dataset_links(save_directory). */
  method UpdateDatasetLinks(store: LocalStore, remote: string -> RemoteResource, fingerprint: Bytes -> string,
                            saveDirectory: string := DefaultSaveDirectory)
    modifies store
    ensures store.files == RefreshedLinks(old(store.files), saveDirectory, remote, fingerprint)
    ensures store.downloads == old(store.downloads)
      + (if LinksNeedDownload(old(store.files), saveDirectory, remote, fingerprint) then [DatasetUrl] else [])
  {
    var quadkeyLinksFile := LinksFile(saveDirectory);
    var download := true;
    if quadkeyLinksFile in store.files {
      var localMd5 := fingerprint(store.files[quadkeyLinksFile]);
      var remoteMd5 := remote(DatasetUrl).contentMd5;
      download := localMd5 != remoteMd5;
    }
    if download {
      store.Download(DatasetUrl, quadkeyLinksFile, remote);
    }
  }

  /** After a refresh the local file is present; a download leaves it equal to the GET body and touches no other file. */
  lemma RefreshedLinksEffect(files: map<string, Bytes>, saveDirectory: string,
                             remote: string -> RemoteResource, fingerprint: Bytes -> string, other: string)
    requires other != LinksFile(saveDirectory)
    ensures var after := RefreshedLinks(files, saveDirectory, remote, fingerprint);
      && LinksFile(saveDirectory) in after
      && (LinksNeedDownload(files, saveDirectory, remote, fingerprint) ==> after[LinksFile(saveDirectory)] == remote(DatasetUrl).body)
      && (other in after <==> other in files)
      && (other in files ==> after[other] == files[other])
  {
  }

  /** With an unchanged remote whose Content-MD5 matches its body, a second refresh downloads nothing. */
  lemma RefreshLinksTwice(files: map<string, Bytes>, saveDirectory: string,
                          remote: string -> RemoteResource, fingerprint: Bytes -> string)
    requires fingerprint(remote(DatasetUrl).body) == remote(DatasetUrl).contentMd5
    ensures var once := RefreshedLinks(files, saveDirectory, remote, fingerprint);
      && !LinksNeedDownload(once, saveDirectory, remote, fingerprint)
      && RefreshedLinks(once, saveDirectory, remote, fingerprint) == once
  {
  }
}
