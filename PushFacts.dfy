/** What the push plan does: which blobs it deletes, which files it
    uploads and in what order, and what the container holds afterwards. */
module PushFacts {
  import opened BlobTypes
  import opened SyncInfo
  import opened BlobSyncCore
  import opened BlobStore
  import opened Uploader
  import ClassificationFacts

  lemma SegmentMembership(c: Classification, name: string)
    ensures DeleteRequest(name) in DeletesOf(c.onlyRemote) <==> BlobRef(name) in c.onlyRemote
    ensures UploadRequest(name) in UploadsOfPairs(c.differs) <==> IsPairName(c.differs, name)
    ensures UploadRequest(name) in UploadsOfPairs(c.identical) <==> IsPairName(c.identical, name)
    ensures UploadRequest(name) in UploadsOfFiles(c.onlyLocal) <==> IsFileName(c.onlyLocal, name)
    ensures UploadRequest(name) !in DeletesOf(c.onlyRemote)
    ensures DeleteRequest(name) !in UploadsOfPairs(c.differs) + UploadsOfFiles(c.onlyLocal) + UploadsOfPairs(c.identical)
  {
    if BlobRef(name) in c.onlyRemote {
      var k :| 0 <= k < |c.onlyRemote| && c.onlyRemote[k] == BlobRef(name);
      assert DeletesOf(c.onlyRemote)[k] == DeleteRequest(name);
    }
    if IsPairName(c.differs, name) {
      var k :| 0 <= k < |c.differs| && c.differs[k].0.name == name;
      assert UploadsOfPairs(c.differs)[k] == UploadRequest(name);
    }
    if IsPairName(c.identical, name) {
      var k :| 0 <= k < |c.identical| && c.identical[k].0.name == name;
      assert UploadsOfPairs(c.identical)[k] == UploadRequest(name);
    }
    if IsFileName(c.onlyLocal, name) {
      var k :| 0 <= k < |c.onlyLocal| && c.onlyLocal[k].name == name;
      assert UploadsOfFiles(c.onlyLocal)[k] == UploadRequest(name);
    }
  }

  /** A blob is deleted exactly when the Delete bit is set and it is remote-only. */
  lemma PushDeletesIff(c: Classification, settings: SyncSettings, name: string)
    ensures DeleteRequest(name) in PushPlan(c, settings)
      <==> HasFlag(settings, Delete) && BlobRef(name) in c.onlyRemote
  {
    SegmentMembership(c, name);
  }

  /** A blob is uploaded exactly when it is a changed file, a local-only
      file, or, with the Force bit set, an identical file. */
  lemma PushUploadsIff(c: Classification, settings: SyncSettings, name: string)
    ensures UploadRequest(name) in PushPlan(c, settings) <==>
      IsPairName(c.differs, name) || IsFileName(c.onlyLocal, name)
      || (HasFlag(settings, Force) && IsPairName(c.identical, name))
  {
    SegmentMembership(c, name);
  }

  /** Every delete comes before every upload, and the uploads come in
      category order: changed files, then local-only files, then forced
      identical files, each in the category's own order. */
  lemma PushPlanOrder(c: Classification, settings: SyncSettings)
    ensures var plan, d := PushPlan(c, settings), if HasFlag(settings, Delete) then |c.onlyRemote| else 0;
      && |plan| == d + |c.differs| + |c.onlyLocal| + (if HasFlag(settings, Force) then |c.identical| else 0)
      && (forall i, j :: 0 <= i < j < |plan| && plan[i].UploadRequest? ==> plan[j].UploadRequest?)
      && (forall k :: 0 <= k < d ==> plan[k] == DeleteRequest(c.onlyRemote[k].name))
      && (forall k :: 0 <= k < |c.differs| ==> plan[d + k] == UploadRequest(c.differs[k].0.name))
      && (forall k :: 0 <= k < |c.onlyLocal| ==>
            plan[d + |c.differs| + k] == UploadRequest(c.onlyLocal[k].name))
      && (HasFlag(settings, Force) ==> forall k :: 0 <= k < |c.identical| ==>
            plan[d + |c.differs| + |c.onlyLocal| + k] == UploadRequest(c.identical[k].0.name))
  {
  }

  /** A name no request of the plan mentions keeps its blob and headers. */
  lemma {:induction false} PerformAllUntouched(s: StoreState, plan: seq<Request>, files: map<string, Bytes>,
                                               name: string)
    requires Readable(plan, files)
    requires DeleteRequest(name) !in plan && UploadRequest(name) !in plan
    ensures var r := PerformAll(s, plan, files);
      && (name in r.contents <==> name in s.contents)
      && (name in s.contents ==> r.contents[name] == s.contents[name])
      && (name in r.headers <==> name in s.headers)
      && (name in s.headers ==> r.headers[name] == s.headers[name])
  {
    if plan != [] {
      var pre := plan[..|plan| - 1];
      assert Readable(pre, files) by {
        assert forall k :: 0 <= k < |pre| ==> pre[k] == plan[k];
      }
      assert forall q :: q in pre ==> q in plan;
      PerformAllUntouched(s, pre, files, name);
    }
  }

  /** A name the plan uploads and never deletes ends up holding the local
      file's bytes, with the mapped content type when its extension has one. */
  lemma {:induction false} PerformAllUploaded(s: StoreState, plan: seq<Request>, files: map<string, Bytes>,
                                              name: string)
    requires Readable(plan, files)
    requires UploadRequest(name) in plan && DeleteRequest(name) !in plan
    ensures var r := PerformAll(s, plan, files);
      && name in files && name in r.contents && r.contents[name] == files[name]
      && name in r.headers
      && (MappedContentType(name).Some? ==> r.headers[name].contentType == MappedContentType(name))
  {
    var pre, last := plan[..|plan| - 1], plan[|plan| - 1];
    assert Readable(pre, files) by {
      assert forall k :: 0 <= k < |pre| ==> pre[k] == plan[k];
    }
    assert plan == pre + [last];
    assert DeleteRequest(name) !in pre;
    if last.UploadRequest? {
      assert last.name in files;
    }
    if last != UploadRequest(name) {
      PerformAllUploaded(s, pre, files, name);
    }
  }

  /** A name the plan deletes and never uploads ends up absent. */
  lemma {:induction false} PerformAllDeleted(s: StoreState, plan: seq<Request>, files: map<string, Bytes>,
                                             name: string)
    requires Readable(plan, files)
    requires DeleteRequest(name) in plan && UploadRequest(name) !in plan
    ensures var r := PerformAll(s, plan, files);
      name !in r.contents && name !in r.headers
  {
    var pre, last := plan[..|plan| - 1], plan[|plan| - 1];
    assert Readable(pre, files) by {
      assert forall k :: 0 <= k < |pre| ==> pre[k] == plan[k];
    }
    assert plan == pre + [last];
    assert UploadRequest(name) !in pre;
    if last.UploadRequest? {
      assert last.name in files;
    }
    if last != DeleteRequest(name) {
      PerformAllDeleted(s, pre, files, name);
    }
  }

  /** The blobs a push uploads (changed files, local-only files and, with
      Force, identical files). */
  predicate Uploaded(c: Classification, settings: SyncSettings, name: string)
  {
    IsPairName(c.differs, name) || IsFileName(c.onlyLocal, name)
    || (HasFlag(settings, Force) && IsPairName(c.identical, name))
  }

  /** After a push, every uploaded blob holds the local file's bytes, every
      remote-only blob is gone when the Delete bit is set, and every other
      blob keeps its content and headers. */
  lemma PushOutcome(listing: seq<RemoteItem>, files: map<string, Bytes>, paths: seq<string>,
                    recursive: bool, settings: SyncSettings, s: StoreState, name: string)
    requires Enumerated(paths, files)
    ensures Readable(PushPlan(SyncInfoOf(listing, files, paths, recursive), settings), files)
    ensures var c := SyncInfoOf(listing, files, paths, recursive);
      var r := PerformAll(s, PushPlan(c, settings), files);
      Uploaded(c, settings, name) ==> name in files && name in r.contents && r.contents[name] == files[name]
    ensures var c := SyncInfoOf(listing, files, paths, recursive);
      var r := PerformAll(s, PushPlan(c, settings), files);
      HasFlag(settings, Delete) && BlobRef(name) in c.onlyRemote ==> name !in r.contents
    ensures var c := SyncInfoOf(listing, files, paths, recursive);
      var r := PerformAll(s, PushPlan(c, settings), files);
      !Uploaded(c, settings, name) && !(HasFlag(settings, Delete) && BlobRef(name) in c.onlyRemote) ==>
        && (name in r.contents <==> name in s.contents)
        && (name in s.contents ==> r.contents[name] == s.contents[name])
  {
    var c := SyncInfoOf(listing, files, paths, recursive);
    var plan := PushPlan(c, settings);
    PlanIsReadable(listing, files, paths, recursive, settings);
    PushDeletesIff(c, settings, name);
    PushUploadsIff(c, settings, name);
    ClassificationFacts.OnlyRemoteIff(listing, files, name);
    assert c.onlyRemote == ClassifyRemote(listing, files).onlyRemote;
    if UploadRequest(name) in plan {
      var k :| 0 <= k < |plan| && plan[k] == UploadRequest(name);
      assert name in files;
    }
    if UploadRequest(name) in plan && DeleteRequest(name) !in plan {
      PerformAllUploaded(s, plan, files, name);
    }
    if DeleteRequest(name) in plan && UploadRequest(name) !in plan {
      PerformAllDeleted(s, plan, files, name);
    }
    if DeleteRequest(name) !in plan && UploadRequest(name) !in plan {
      PerformAllUntouched(s, plan, files, name);
    }
  }
}
