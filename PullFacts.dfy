/** What a pull does to the local tree: which files it downloads, replaces
    and deletes, that nothing else changes, and that afterwards the verifier
    accepts the tree whenever the listing was current. */
module PullFacts {
  import opened BlobTypes
  import opened SyncInfo
  import opened LocalFiles
  import opened BlobSyncCore
  import opened Downloader
  import ClassificationFacts

  /** After the download loop a blob that had no local file holds the
      blob's content, even when it was listed twice; other files are as
      they were. */
  lemma {:induction false} DownloadsEffect(files: map<string, Bytes>, blobs: seq<BlobRef>,
                                           remote: map<string, Bytes>, name: string)
    requires forall k :: 0 <= k < |blobs| ==> blobs[k].name in remote
    ensures BlobRef(name) in blobs && name !in files ==>
      name in Downloads(files, blobs, remote) && Downloads(files, blobs, remote)[name] == remote[name]
    ensures BlobRef(name) !in blobs ==>
      && (name in Downloads(files, blobs, remote) <==> name in files)
      && (name in files ==> Downloads(files, blobs, remote)[name] == files[name])
  {
    if blobs != [] {
      var pre, last := blobs[..|blobs| - 1], blobs[|blobs| - 1];
      DownloadsEffect(files, pre, remote, name);
      assert BlobRef(name) in blobs <==> BlobRef(name) in pre || last == BlobRef(name) by {
        assert blobs == pre + [last];
      }
      var before := Downloads(files, pre, remote);
      if last.name == name && name !in files {
        if name in before {
          OverwriteExact(before[name], remote[name]);
        }
      }
    }
  }

  /** After the replace loop every paired file holds the blob's content;
      other files are as they were. */
  lemma {:induction false} ReplacementsEffect(files: map<string, Bytes>, pairs: seq<(BlobRef, FileData)>,
                                              remote: map<string, Bytes>, name: string)
    requires forall k :: 0 <= k < |pairs| ==> pairs[k].0.name in remote
    ensures IsPairName(pairs, name) ==>
      name in Replacements(files, pairs, remote) && Replacements(files, pairs, remote)[name] == remote[name]
    ensures !IsPairName(pairs, name) ==>
      && (name in Replacements(files, pairs, remote) <==> name in files)
      && (name in files ==> Replacements(files, pairs, remote)[name] == files[name])
  {
    if pairs != [] {
      var pre := pairs[..|pairs| - 1];
      ReplacementsEffect(files, pre, remote, name);
      assert IsPairName(pairs, name) <==> IsPairName(pre, name) || pairs[|pairs| - 1].0.name == name by {
        if IsPairName(pairs, name) && pairs[|pairs| - 1].0.name != name {
          var k :| 0 <= k < |pairs| && pairs[k].0.name == name;
          assert pre[k] == pairs[k];
        }
        if IsPairName(pre, name) {
          var k :| 0 <= k < |pre| && pre[k].0.name == name;
          assert pairs[k] == pre[k];
        }
      }
    }
  }

  /** After the delete loop no listed descriptor's file remains; other files
      are as they were. */
  lemma {:induction false} DeletionsEffect(files: map<string, Bytes>, locals: seq<FileData>, name: string)
    ensures IsFileName(locals, name) ==> name !in Deletions(files, locals)
    ensures !IsFileName(locals, name) ==>
      && (name in Deletions(files, locals) <==> name in files)
      && (name in files ==> Deletions(files, locals)[name] == files[name])
  {
    if locals != [] {
      var pre := locals[..|locals| - 1];
      DeletionsEffect(files, pre, name);
      assert IsFileName(locals, name) <==> IsFileName(pre, name) || locals[|locals| - 1].name == name by {
        if IsFileName(locals, name) && locals[|locals| - 1].name != name {
          var k :| 0 <= k < |locals| && locals[k].name == name;
          assert pre[k] == locals[k];
        }
        if IsFileName(pre, name) {
          var k :| 0 <= k < |pre| && pre[k].name == name;
          assert locals[k] == pre[k];
        }
      }
    }
  }

  /** Remote-only and changed names are listed blob names, remote-only names
      have no local file, and no local-only name is a listed blob name. */
  lemma CategoryNames(listing: seq<RemoteItem>, files: map<string, Bytes>, paths: seq<string>,
                      recursive: bool, name: string)
    requires Enumerated(paths, files)
    ensures var c := SyncInfoOf(listing, files, paths, recursive);
      BlobRef(name) in c.onlyRemote <==> name in RemoteNames(listing) && name !in files
    ensures var c := SyncInfoOf(listing, files, paths, recursive);
      IsPairName(c.differs, name) ==> name in RemoteNames(listing)
    ensures var c := SyncInfoOf(listing, files, paths, recursive);
      IsFileName(c.onlyLocal, name) ==> name !in RemoteNames(listing)
  {
    var c := SyncInfoOf(listing, files, paths, recursive);
    ClassificationFacts.OnlyRemoteIff(listing, files, name);
    if IsPairName(c.differs, name) {
      var k :| 0 <= k < |c.differs| && c.differs[k].0.name == name;
      ClassificationFacts.PairedIff(listing, files, c.differs[k], Differs);
    }
    if IsFileName(c.onlyLocal, name) {
      var k :| 0 <= k < |c.onlyLocal| && c.onlyLocal[k].name == name;
      ClassificationFacts.OnlyLocalIff(listing, files, paths, recursive, c.onlyLocal[k]);
    }
  }

  /** A file the pull downloads or replaces. */
  predicate Fetched(c: Classification, name: string)
  {
    BlobRef(name) in c.onlyRemote || IsPairName(c.differs, name)
  }

  /** The three loops' effect on one name, for any classification whose
      remote-only names are missing locally and whose local-only names are
      not downloaded. */
  lemma PullResultEffect(files: map<string, Bytes>, c: Classification, remote: map<string, Bytes>,
                         settings: SyncSettings, name: string)
    requires Fetchable(c, remote)
    requires BlobRef(name) in c.onlyRemote ==> name !in files
    requires IsFileName(c.onlyLocal, name) ==> !Fetched(c, name)
    ensures var r := PullResult(files, c, remote, settings);
      Fetched(c, name) ==> name in remote && name in r && r[name] == remote[name]
    ensures DeletesLocal(settings) && IsFileName(c.onlyLocal, name) ==>
      name !in PullResult(files, c, remote, settings)
    ensures var r := PullResult(files, c, remote, settings);
      !Fetched(c, name) && !(DeletesLocal(settings) && IsFileName(c.onlyLocal, name)) ==>
        && (name in r <==> name in files)
        && (name in files ==> r[name] == files[name])
  {
    var downloaded := Downloads(files, c.onlyRemote, remote);
    var replaced := Replacements(downloaded, c.differs, remote);
    DownloadsEffect(files, c.onlyRemote, remote, name);
    ReplacementsEffect(downloaded, c.differs, remote, name);
    DeletionsEffect(replaced, c.onlyLocal, name);
    if BlobRef(name) in c.onlyRemote {
      var k :| 0 <= k < |c.onlyRemote| && c.onlyRemote[k] == BlobRef(name);
      assert c.onlyRemote[k].name in remote;
    }
    if IsPairName(c.differs, name) {
      var k :| 0 <= k < |c.differs| && c.differs[k].0.name == name;
    }
  }

  /** After a pull every remote-only and every changed name holds the blob's
      content, every local-only file is gone when the Delete bit is set, and
      every other file is unchanged. */
  lemma PullOutcome(listing: seq<RemoteItem>, files: map<string, Bytes>, paths: seq<string>, recursive: bool,
                    remote: map<string, Bytes>, settings: SyncSettings, name: string)
    requires Enumerated(paths, files)
    requires Downloadable(listing, remote)
    ensures var c, r := SyncInfoOf(listing, files, paths, recursive),
                        Pull(listing, files, paths, recursive, remote, settings);
      Fetched(c, name) ==> name in remote && name in r && r[name] == remote[name]
    ensures var c, r := SyncInfoOf(listing, files, paths, recursive),
                        Pull(listing, files, paths, recursive, remote, settings);
      DeletesLocal(settings) && IsFileName(c.onlyLocal, name) ==> name !in r
    ensures var c, r := SyncInfoOf(listing, files, paths, recursive),
                        Pull(listing, files, paths, recursive, remote, settings);
      !Fetched(c, name) && !(DeletesLocal(settings) && IsFileName(c.onlyLocal, name)) ==>
        && (name in r <==> name in files)
        && (name in files ==> r[name] == files[name])
  {
    var c := SyncInfoOf(listing, files, paths, recursive);
    ClassifiedNamesListed(listing, files, paths, recursive, remote);
    CategoryNames(listing, files, paths, recursive, name);
    PullResultEffect(files, c, remote, settings, name);
  }

  /** No two listed blobs share a name, as in a container listing. */
  predicate DistinctNames(listing: seq<RemoteItem>)
  {
    forall i, j :: 0 <= i < j < |listing| ==> listing[i].name != listing[j].name
  }

  /** No loop of the pull visits an Identical entry: its file keeps its
      content. */
  lemma IdenticalUntouched(listing: seq<RemoteItem>, files: map<string, Bytes>, paths: seq<string>,
                           recursive: bool, remote: map<string, Bytes>, settings: SyncSettings, k: nat)
    requires Enumerated(paths, files)
    requires Downloadable(listing, remote)
    requires DistinctNames(listing)
    requires k < |SyncInfoOf(listing, files, paths, recursive).identical|
    ensures var name := SyncInfoOf(listing, files, paths, recursive).identical[k].0.name;
      var r := Pull(listing, files, paths, recursive, remote, settings);
      name in files && name in r && r[name] == files[name]
  {
    var c := SyncInfoOf(listing, files, paths, recursive);
    var entry := c.identical[k];
    var name := entry.0.name;
    ClassificationFacts.PairedIff(listing, files, entry, Identical);
    var i :| 0 <= i < |listing| && listing[i].name in files
      && entry == Entry(listing[i], files) && Classify(listing[i], files) == Identical;
    CategoryNames(listing, files, paths, recursive, name);
    if IsPairName(c.differs, name) {
      var k' :| 0 <= k' < |c.differs| && c.differs[k'].0.name == name;
      ClassificationFacts.PairedIff(listing, files, c.differs[k'], Differs);
      assert false;
    }
    assert name in RemoteNames(listing);
    PullOutcome(listing, files, paths, recursive, remote, settings, name);
  }

  /** The property the pull driver relies on: when the listing is current,
      the verifier accepts the tree the pull leaves behind, whatever the
      local tree held before. */
  lemma PullThenVerify(listing: seq<RemoteItem>, files: map<string, Bytes>, paths: seq<string>, recursive: bool,
                       remote: map<string, Bytes>, settings: SyncSettings)
    requires Enumerated(paths, files)
    requires Published(listing, remote)
    ensures AllMatch(listing, Pull(listing, files, paths, recursive, remote, settings))
  {
    var c := SyncInfoOf(listing, files, paths, recursive);
    var r := Pull(listing, files, paths, recursive, remote, settings);
    forall i | 0 <= i < |listing| ensures Matches(listing[i], r) {
      var item := listing[i];
      var name := item.name;
      assert name in RemoteNames(listing);
      PullOutcome(listing, files, paths, recursive, remote, settings, name);
      CategoryNames(listing, files, paths, recursive, name);
      if Classify(item, files) == Differs {
        ClassificationFacts.PairedIff(listing, files, Entry(item, files), Differs);
        var k :| 0 <= k < |c.differs| && c.differs[k] == Entry(item, files);
        assert c.differs[k].0.name == name;
      }
    }
  }

  /** After a pull from a current listing, a fresh classification finds
      nothing missing and nothing changed, so a second pull downloads
      nothing. */
  lemma PullConverges(listing: seq<RemoteItem>, files: map<string, Bytes>, paths: seq<string>, recursive: bool,
                      remote: map<string, Bytes>, settings: SyncSettings)
    requires Enumerated(paths, files)
    requires Published(listing, remote)
    ensures var r := Pull(listing, files, paths, recursive, remote, settings);
      ClassifyRemote(listing, r).onlyRemote == [] && ClassifyRemote(listing, r).differs == []
  {
    var r := Pull(listing, files, paths, recursive, remote, settings);
    PullThenVerify(listing, files, paths, recursive, remote, settings);
    ClassificationFacts.VerifyIffInSync(listing, r);
  }

  /** Without the Delete bit a pull removes no local file. */
  lemma PullKeepsFilesWithoutDelete(listing: seq<RemoteItem>, files: map<string, Bytes>, paths: seq<string>,
                                    recursive: bool, remote: map<string, Bytes>, settings: SyncSettings)
    requires Enumerated(paths, files)
    requires Downloadable(listing, remote)
    requires !DeletesLocal(settings)
    ensures files.Keys <= Pull(listing, files, paths, recursive, remote, settings).Keys
  {
    forall name | name in files ensures name in Pull(listing, files, paths, recursive, remote, settings) {
      PullOutcome(listing, files, paths, recursive, remote, settings, name);
    }
  }

  /** The pull driver never tests the Force bit: settings that agree on
      Delete produce the same tree. */
  lemma ForceIsIgnored(listing: seq<RemoteItem>, files: map<string, Bytes>, paths: seq<string>,
                       recursive: bool, remote: map<string, Bytes>, settings: SyncSettings)
    requires Enumerated(paths, files)
    requires Downloadable(listing, remote)
    ensures Pull(listing, files, paths, recursive, remote, settings | Force)
         == Pull(listing, files, paths, recursive, remote, settings & !Force)
  {
    assert DeletesLocal(settings | Force) == DeletesLocal(settings & !Force);
  }
}
