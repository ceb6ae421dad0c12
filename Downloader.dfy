/** The pull driver: downloads remote-only blobs, replaces changed files,
    deletes local-only files under the Delete flag, and reports whether the
    verifier then accepts the local tree. */
module Downloader {
  import opened BlobTypes
  import opened SyncInfo
  import opened LocalFiles
  import opened BlobSyncCore
  import opened BlobStore
  import ClassificationFacts

  /** The pull driver's own `[Flags]` enumeration. */
  type SyncSettings = bv32

  const Default: SyncSettings := 0
  const Delete: SyncSettings := 1
  const Force: SyncSettings := 2

  /** The pull driver's test `(settings & Delete) != 0`; Force is never tested. */
  predicate DeletesLocal(settings: SyncSettings)
  {
    settings & Delete != 0
  }

  /** Every listed blob can be downloaded from `remote`. */
  predicate Downloadable(listing: seq<RemoteItem>, remote: map<string, Bytes>)
  {
    forall i :: 0 <= i < |listing| ==> listing[i].name in remote
  }

  /** The listing is current: every item carries the digest and the length
      of the blob's content in `remote`. */
  predicate Published(listing: seq<RemoteItem>, remote: map<string, Bytes>)
  {
    forall i :: 0 <= i < |listing| ==>
      && listing[i].name in remote
      && listing[i].contentHash == Fingerprint(remote[listing[i].name])
      && listing[i].length == |remote[listing[i].name]|
  }

  /** Every blob the pull downloads exists in `remote`. */
  predicate Fetchable(c: Classification, remote: map<string, Bytes>)
  {
    && (forall k :: 0 <= k < |c.onlyRemote| ==> c.onlyRemote[k].name in remote)
    && (forall k :: 0 <= k < |c.differs| ==> c.differs[k].0.name in remote)
  }

  /** The OnlyRemote loop: open each path for writing and download into it. */
  function Downloads(files: map<string, Bytes>, blobs: seq<BlobRef>, remote: map<string, Bytes>): (after: map<string, Bytes>)
    requires forall k :: 0 <= k < |blobs| ==> blobs[k].name in remote
  {
    if blobs == [] then files
    else
      var before, name := Downloads(files, blobs[..|blobs| - 1], remote), blobs[|blobs| - 1].name;
      before[name := Written(before, name, remote[name])]
  }

  /** The Differs loop: delete each stale file, then download it afresh. */
  function Replacements(files: map<string, Bytes>, pairs: seq<(BlobRef, FileData)>,
                        remote: map<string, Bytes>): (after: map<string, Bytes>)
    requires forall k :: 0 <= k < |pairs| ==> pairs[k].0.name in remote
  {
    if pairs == [] then files
    else
      var name := pairs[|pairs| - 1].0.name;
      var deleted := Replacements(files, pairs[..|pairs| - 1], remote) - {name};
      deleted[name := Written(deleted, name, remote[name])]
  }

  /** The OnlyLocal loop: delete each file. */
  function Deletions(files: map<string, Bytes>, locals: seq<FileData>): (after: map<string, Bytes>)
  {
    if locals == [] then files
    else Deletions(files, locals[..|locals| - 1]) - {locals[|locals| - 1].name}
  }

  /** The local tree after the three loops, for a given classification. */
  function PullResult(files: map<string, Bytes>, c: Classification, remote: map<string, Bytes>,
                      settings: SyncSettings): (after: map<string, Bytes>)
    requires Fetchable(c, remote)
  {
    var replaced := Replacements(Downloads(files, c.onlyRemote, remote), c.differs, remote);
    if DeletesLocal(settings) then Deletions(replaced, c.onlyLocal) else replaced
  }

  /** Every blob the classification asks to download is a listed blob. */
  lemma ClassifiedNamesListed(listing: seq<RemoteItem>, files: map<string, Bytes>, paths: seq<string>,
                              recursive: bool, remote: map<string, Bytes>)
    requires Enumerated(paths, files)
    requires Downloadable(listing, remote)
    ensures Fetchable(SyncInfoOf(listing, files, paths, recursive), remote)
  {
    var c := SyncInfoOf(listing, files, paths, recursive);
    forall k | 0 <= k < |c.onlyRemote| ensures c.onlyRemote[k].name in remote {
      ClassificationFacts.OnlyRemoteIff(listing, files, c.onlyRemote[k].name);
    }
    forall k | 0 <= k < |c.differs| ensures c.differs[k].0.name in remote {
      ClassificationFacts.PairedIff(listing, files, c.differs[k], Differs);
    }
  }

  /** The local tree after a whole pull: classify, then run the three loops. */
  function Pull(listing: seq<RemoteItem>, files: map<string, Bytes>, paths: seq<string>, recursive: bool,
                remote: map<string, Bytes>, settings: SyncSettings): (after: map<string, Bytes>)
    requires Enumerated(paths, files)
    requires Downloadable(listing, remote)
  {
    ClassifiedNamesListed(listing, files, paths, recursive, remote);
    PullResult(files, SyncInfoOf(listing, files, paths, recursive), remote, settings)
  }

  method DownloadBlobs(dir: LocalDirectory, container: BlobContainer, blobs: seq<BlobRef>)
    requires forall k :: 0 <= k < |blobs| ==> blobs[k].name in container.contents
    modifies dir
    ensures dir.files == Downloads(old(dir.files), blobs, container.contents)
  {
    var i := 0;
    while i < |blobs|
      invariant 0 <= i <= |blobs|
      invariant dir.files == Downloads(old(dir.files), blobs[..i], container.contents)
    {
      var name := blobs[i].name;
      dir.WriteFile(name, container.contents[name]);
      assert blobs[..i + 1][..i] == blobs[..i];
      i := i + 1;
    }
    assert blobs[..i] == blobs;
  }

  method ReplaceFiles(dir: LocalDirectory, container: BlobContainer, pairs: seq<(BlobRef, FileData)>)
    requires forall k :: 0 <= k < |pairs| ==> pairs[k].0.name in container.contents
    modifies dir
    ensures dir.files == Replacements(old(dir.files), pairs, container.contents)
  {
    var i := 0;
    while i < |pairs|
      invariant 0 <= i <= |pairs|
      invariant dir.files == Replacements(old(dir.files), pairs[..i], container.contents)
    {
      var name := pairs[i].0.name;
      dir.DeleteFile(name);
      dir.WriteFile(name, container.contents[name]);
      assert pairs[..i + 1][..i] == pairs[..i];
      i := i + 1;
    }
    assert pairs[..i] == pairs;
  }

  method DeleteLocalFiles(dir: LocalDirectory, locals: seq<FileData>)
    modifies dir
    ensures dir.files == Deletions(old(dir.files), locals)
  {
    var i := 0;
    while i < |locals|
      invariant 0 <= i <= |locals|
      invariant dir.files == Deletions(old(dir.files), locals[..i])
    {
      dir.DeleteFile(locals[i].name);
      assert locals[..i + 1][..i] == locals[..i];
      i := i + 1;
    }
    assert locals[..i] == locals;
  }

  /** `Sync`: classify, download, replace, optionally delete, and return the
      verifier's verdict on the resulting tree. Console output is left out. */
  method Sync(listing: seq<RemoteItem>, dir: LocalDirectory, paths: seq<string>, recursive: bool,
              settings: SyncSettings, container: BlobContainer, verbose: bool) returns (ok: bool)
    requires Enumerated(paths, dir.files)
    requires Downloadable(listing, container.contents)
    modifies dir
    ensures dir.files == Pull(listing, old(dir.files), paths, recursive, container.contents, settings)
    ensures ok == AllMatch(listing, dir.files)
  {
    var info := GetSyncInfo(listing, dir, paths, verbose, recursive);
    ClassifiedNamesListed(listing, dir.files, paths, recursive, container.contents);
    var onlyRemote, differs, onlyLocal := info.onlyRemote, info.differs, info.onlyLocal;
    DownloadBlobs(dir, container, onlyRemote);
    ReplaceFiles(dir, container, differs);
    if settings & Delete != 0 {
      DeleteLocalFiles(dir, onlyLocal);
    }
    ok := Verify(info, dir, verbose);
  }
}
