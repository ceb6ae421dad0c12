/** The push driver: deletes remote-only blobs under the Delete flag,
    uploads every changed and every local-only file, re-uploads identical
    files under the Force flag, and sets each uploaded blob's headers. */
module Uploader {
  import opened Wrappers
  import opened BlobTypes
  import opened SyncInfo
  import opened LocalFiles
  import opened BlobSyncCore
  import opened BlobStore
  import ClassificationFacts

  // ---------------------------------------------------------------------
  // Settings: a [Flags] enumeration over a 32-bit integer
  // ---------------------------------------------------------------------

  type SyncSettings = bv32

  const Default: SyncSettings := 0
  const Delete: SyncSettings := 1
  const Force: SyncSettings := 2

  /** `Enum.HasFlag`: every bit of `flag` is set in `settings`. */
  predicate HasFlag(settings: SyncSettings, flag: SyncSettings)
  {
    settings & flag == flag
  }

  lemma FlagsAreIndependentBits(settings: SyncSettings)
    ensures HasFlag(settings, Delete) <==> settings & 1 != 0
    ensures HasFlag(settings, Force) <==> settings & 2 != 0
    ensures HasFlag(settings | Force, Delete) == HasFlag(settings, Delete)
    ensures HasFlag(settings | Delete, Force) == HasFlag(settings, Force)
    ensures HasFlag(Delete | Force, Delete) && HasFlag(Delete | Force, Force)
    ensures !HasFlag(Default, Delete) && !HasFlag(Default, Force)
  {
  }

  // ---------------------------------------------------------------------
  // Content type resolution
  // ---------------------------------------------------------------------

  /** The extension `Path.GetExtension` finds in `name[..i]`, given that
      `name[i..]` holds neither a dot nor a separator. */
  function ExtensionBefore(name: string, i: nat): (ext: string)
    requires i <= |name|
    requires forall k :: i <= k < |name| ==> name[k] != '.' && !IsSeparator(name[k])
    ensures ext == [] || (2 <= |ext| <= |name| && ext[0] == '.' && ext == name[|name| - |ext|..])
    ensures forall k :: 1 <= k < |ext| ==> ext[k] != '.' && !IsSeparator(ext[k])
    ensures ext == [] ==>
      || (i == |name| && i > 0 && name[i - 1] == '.')
      || forall k :: 0 <= k < i && name[k] == '.' ==> exists j :: k < j < i && IsSeparator(name[j])
    decreases i
  {
    if i == 0 then ""
    else if name[i - 1] == '.' then (if i == |name| then "" else name[i - 1..])
    else if IsSeparator(name[i - 1]) then ""
    else ExtensionBefore(name, i - 1)
  }

  /** `Path.GetExtension`: the last dot of the last path segment and what
      follows it, or "" when there is no dot or it ends the name. */
  function Extension(name: string): (ext: string)
    ensures ext == [] || (2 <= |ext| <= |name| && ext[0] == '.' && ext == name[|name| - |ext|..])
    ensures forall k :: 1 <= k < |ext| ==> ext[k] != '.' && !IsSeparator(ext[k])
    ensures ext == [] ==>
      || (|name| > 0 && name[|name| - 1] == '.')
      || forall k :: 0 <= k < |name| && name[k] == '.' ==> exists j :: k < j < |name| && IsSeparator(name[j])
  {
    ExtensionBefore(name, |name|)
  }

  lemma {:induction false} ExtensionBeforeSuffix(base: string, ext: string, i: nat)
    requires 2 <= |ext| && ext[0] == '.'
    requires forall k :: 1 <= k < |ext| ==> ext[k] != '.' && !IsSeparator(ext[k])
    requires |base| < i <= |base + ext|
    ensures ExtensionBefore(base + ext, i) == ext
    decreases i
  {
    var name := base + ext;
    if i - 1 > |base| {
      assert name[i - 1] == ext[i - 1 - |base|];
      ExtensionBeforeSuffix(base, ext, i - 1);
    } else {
      assert name[i - 1] == '.';
      assert name[i - 1..] == ext;
    }
  }

  /** Appending a dot and a separator-free, dot-free suffix to any name
      makes that suffix its extension. */
  lemma ExtensionOfSuffix(base: string, ext: string)
    requires 2 <= |ext| && ext[0] == '.'
    requires forall k :: 1 <= k < |ext| ==> ext[k] != '.' && !IsSeparator(ext[k])
    ensures Extension(base + ext) == ext
  {
    ExtensionBeforeSuffix(base, ext, |base + ext|);
  }

  const ContentTypeMappings: map<string, string> := map[
    ".html" := "text/html",
    ".css" := "text/css",
    ".js" := "text/javascript",
    ".wasm" := "application/wasm"]

  /** The content type the mapping gives the blob's extension, if any. */
  function MappedContentType(name: string): (t: Option<string>)
    ensures t.Some? <==> Extension(name) in ContentTypeMappings
    ensures t.Some? ==> t.value == ContentTypeMappings[Extension(name)]
  {
    var suffix := Extension(name);
    if suffix in ContentTypeMappings then Some(ContentTypeMappings[suffix]) else None
  }

  /** The headers `ApplyProperties` sets: the mapped content type, else the
      existing one, and every other header copied from the existing properties. */
  function ResolveHeaders(name: string, existing: Headers): (h: Headers)
    ensures h.contentType == if Extension(name) in ContentTypeMappings
                             then Some(ContentTypeMappings[Extension(name)]) else existing.contentType
    ensures h.contentLanguage == existing.contentLanguage
    ensures h.cacheControl == existing.cacheControl
    ensures h.contentDisposition == existing.contentDisposition
    ensures h.contentEncoding == existing.contentEncoding
    ensures h.contentHash == existing.contentHash
  {
    Headers(
      MappedContentType(name).OrElse(existing.contentType),
      existing.contentLanguage,
      existing.cacheControl,
      existing.contentDisposition,
      existing.contentEncoding,
      existing.contentHash)
  }

  /** Resolving a second time changes nothing, so re-uploading a blob
      leaves its headers as the first upload set them. */
  lemma ResolveHeadersIdempotent(name: string, existing: Headers)
    ensures ResolveHeaders(name, ResolveHeaders(name, existing)) == ResolveHeaders(name, existing)
  {
  }

  /** The content type `ApplyProperties` returns for display: the mapped
      type, or "" when the extension is not mapped. */
  function DisplayContentType(name: string): (r: string)
    ensures Extension(name) in ContentTypeMappings ==> r == ContentTypeMappings[Extension(name)]
    ensures Extension(name) !in ContentTypeMappings ==> r == ""
  {
    match MappedContentType(name)
    case Some(t) => t
    case None => ""
  }

  /** Each of the four default extensions maps to its content type, in any
      directory and after other dots. */
  lemma DefaultMappings()
    ensures MappedContentType("index.html") == Some("text/html")
    ensures MappedContentType("css/site.css") == Some("text/css")
    ensures MappedContentType("app.min.js") == Some("text/javascript")
    ensures MappedContentType("bin/dotnet.wasm") == Some("application/wasm")
  {
    ExtensionOfSuffix("index", ".html");
    assert "index" + ".html" == "index.html";
    ExtensionOfSuffix("css/site", ".css");
    assert "css/site" + ".css" == "css/site.css";
    ExtensionOfSuffix("app.min", ".js");
    assert "app.min" + ".js" == "app.min.js";
    ExtensionOfSuffix("bin/dotnet", ".wasm");
    assert "bin/dotnet" + ".wasm" == "bin/dotnet.wasm";
  }

  /** An unlisted extension, an extension in another case, and a name
      without a dot get no content type. */
  lemma UnmappedNames()
    ensures MappedContentType("notes.txt") == None
    ensures MappedContentType("index.HTML") == None
    ensures MappedContentType("html") == None
  {
    ExtensionOfSuffix("notes", ".txt");
    assert "notes" + ".txt" == "notes.txt";
    ExtensionOfSuffix("index", ".HTML");
    assert "index" + ".HTML" == "index.HTML";
    assert Extension("html") == "";
  }

  // ---------------------------------------------------------------------
  // The push plan and its effect on the container
  // ---------------------------------------------------------------------

  function DeletesOf(blobs: seq<BlobRef>): (deletes: seq<Request>)
  {
    seq(|blobs|, k requires 0 <= k < |blobs| => DeleteRequest(blobs[k].name))
  }

  function UploadsOfPairs(pairs: seq<(BlobRef, FileData)>): (uploads: seq<Request>)
  {
    seq(|pairs|, k requires 0 <= k < |pairs| => UploadRequest(pairs[k].0.name))
  }

  function UploadsOfFiles(locals: seq<FileData>): (uploads: seq<Request>)
  {
    seq(|locals|, k requires 0 <= k < |locals| => UploadRequest(locals[k].name))
  }

  /** The requests `Sync` issues, in order: deletes of remote-only blobs
      (Delete flag), uploads of changed files, uploads of local-only files,
      and re-uploads of identical files (Force flag). */
  function PushPlan(c: Classification, settings: SyncSettings): (plan: seq<Request>)
  {
    (if HasFlag(settings, Delete) then DeletesOf(c.onlyRemote) else [])
    + UploadsOfPairs(c.differs)
    + UploadsOfFiles(c.onlyLocal)
    + (if HasFlag(settings, Force) then UploadsOfPairs(c.identical) else [])
  }

  /** Every upload reads a file that exists. */
  predicate Readable(plan: seq<Request>, files: map<string, Bytes>)
  {
    forall k :: 0 <= k < |plan| && plan[k].UploadRequest? ==> plan[k].name in files
  }

  /** The container after one request: a delete drops the blob and its
      headers; an upload (`PushFile`) first sets the resolved headers and
      then stores the local file's bytes. */
  function Perform(s: StoreState, r: Request, files: map<string, Bytes>): (after: StoreState)
    requires r.UploadRequest? ==> r.name in files
  {
    match r
    case DeleteRequest(n) => StoreState(s.contents - {n}, s.headers - {n})
    case UploadRequest(n) =>
      StoreState(s.contents[n := files[n]], s.headers[n := ResolveHeaders(n, PropertiesOf(s.headers, n))])
  }

  function PerformAll(s: StoreState, plan: seq<Request>, files: map<string, Bytes>): (after: StoreState)
    requires Readable(plan, files)
  {
    if plan == [] then s
    else
      var pre := plan[..|plan| - 1];
      assert Readable(pre, files) by {
        assert forall k :: 0 <= k < |pre| ==> pre[k] == plan[k];
      }
      Perform(PerformAll(s, pre, files), plan[|plan| - 1], files)
  }

  lemma ReadableConcat(a: seq<Request>, b: seq<Request>, files: map<string, Bytes>)
    ensures Readable(a + b, files) <==> Readable(a, files) && Readable(b, files)
  {
    if Readable(a, files) && Readable(b, files) {
      forall k | 0 <= k < |a + b| && (a + b)[k].UploadRequest? ensures (a + b)[k].name in files {
        if k >= |a| {
          assert (a + b)[k] == b[k - |a|];
        }
      }
    }
    if Readable(a + b, files) {
      assert forall k :: 0 <= k < |a| ==> (a + b)[k] == a[k];
      assert forall k :: 0 <= k < |b| ==> (a + b)[|a| + k] == b[k];
    }
  }

  /** Every file the plan for a classification of `files` uploads exists. */
  lemma PlanIsReadable(listing: seq<RemoteItem>, files: map<string, Bytes>, paths: seq<string>,
                       recursive: bool, settings: SyncSettings)
    requires Enumerated(paths, files)
    ensures var c := SyncInfoOf(listing, files, paths, recursive);
      && (forall k :: 0 <= k < |c.differs| ==> c.differs[k].0.name in files)
      && (forall k :: 0 <= k < |c.identical| ==> c.identical[k].0.name in files)
      && (forall k :: 0 <= k < |c.onlyLocal| ==> c.onlyLocal[k].name in files)
    ensures Readable(PushPlan(SyncInfoOf(listing, files, paths, recursive), settings), files)
  {
    var c := SyncInfoOf(listing, files, paths, recursive);
    assert c.differs == ClassifyRemote(listing, files).differs;
    assert c.identical == ClassifyRemote(listing, files).identical;
    ClassificationFacts.PairedNamesExist(listing, files);
    forall k | 0 <= k < |c.onlyLocal| ensures c.onlyLocal[k].name in files {
      ClassificationFacts.OnlyLocalIff(listing, files, paths, recursive, c.onlyLocal[k]);
    }
    var dels := if HasFlag(settings, Delete) then DeletesOf(c.onlyRemote) else [];
    var forced := if HasFlag(settings, Force) then UploadsOfPairs(c.identical) else [];
    assert Readable(dels, files);
    assert Readable(UploadsOfPairs(c.differs), files);
    assert Readable(UploadsOfFiles(c.onlyLocal), files);
    assert Readable(forced, files);
    ReadableConcat(dels, UploadsOfPairs(c.differs), files);
    ReadableConcat(dels + UploadsOfPairs(c.differs), UploadsOfFiles(c.onlyLocal), files);
    ReadableConcat(dels + UploadsOfPairs(c.differs) + UploadsOfFiles(c.onlyLocal), forced, files);
  }

  // ---------------------------------------------------------------------
  // The driver
  // ---------------------------------------------------------------------

  /** `ApplyProperties`: resolve and set the blob's headers, and return the
      content type to display. */
  method ApplyProperties(container: BlobContainer, name: string) returns (contentType: string)
    modifies container
    ensures container.headers == old(container.headers)[name := ResolveHeaders(name, PropertiesOf(old(container.headers), name))]
    ensures container.contents == old(container.contents) && container.log == old(container.log)
    ensures contentType == DisplayContentType(name)
  {
    var suffix := Extension(name);
    var mapped: Option<string> := None;
    if suffix in ContentTypeMappings {
      mapped := Some(ContentTypeMappings[suffix]);
    }
    var properties := container.GetProperties(name);
    var headers := Headers(
      mapped.OrElse(properties.contentType),
      properties.contentLanguage,
      properties.cacheControl,
      properties.contentDisposition,
      properties.contentEncoding,
      properties.contentHash);
    container.SetHttpHeaders(name, headers);
    contentType := if mapped.Some? then mapped.value else "";
  }

  /** `PushFile`: set the headers, then upload the local file of the same name. */
  method PushFile(dir: LocalDirectory, container: BlobContainer, name: string)
    requires name in dir.files
    modifies container
    ensures container.State() == Perform(old(container.State()), UploadRequest(name), dir.files)
    ensures container.log == old(container.log) + [UploadRequest(name)]
  {
    var contentType := ApplyProperties(container, name);
    var localFile := dir.files[name];
    container.Upload(name, localFile);
  }

  lemma {:induction false} PerformAllConcat(s: StoreState, a: seq<Request>, b: seq<Request>,
                                            files: map<string, Bytes>)
    requires Readable(a, files) && Readable(b, files)
    ensures Readable(a + b, files)
    ensures PerformAll(s, a + b, files) == PerformAll(PerformAll(s, a, files), b, files)
  {
    ReadableConcat(a, b, files);
    if b != [] {
      var pre := b[..|b| - 1];
      assert Readable(pre, files) by {
        assert forall k :: 0 <= k < |pre| ==> pre[k] == b[k];
      }
      PerformAllConcat(s, a, pre, files);
      assert (a + b)[..|a + b| - 1] == a + pre;
      assert (a + b)[|a + b| - 1] == b[|b| - 1];
      assert PerformAll(s, a + b, files)
        == Perform(PerformAll(s, a + pre, files), b[|b| - 1], files);
    } else {
      assert a + b == a;
    }
  }

  /** The delete loop: one `DeleteIfExists` per remote-only blob. */
  method DeleteBlobs(container: BlobContainer, blobs: seq<BlobRef>, ghost files: map<string, Bytes>)
    modifies container
    ensures Readable(DeletesOf(blobs), files)
    ensures container.log == old(container.log) + DeletesOf(blobs)
    ensures container.State() == PerformAll(old(container.State()), DeletesOf(blobs), files)
  {
    var i := 0;
    while i < |blobs|
      invariant 0 <= i <= |blobs|
      invariant Readable(DeletesOf(blobs[..i]), files)
      invariant container.log == old(container.log) + DeletesOf(blobs[..i])
      invariant container.State() == PerformAll(old(container.State()), DeletesOf(blobs[..i]), files)
    {
      var existed := container.DeleteIfExists(blobs[i].name);
      ghost var done := DeletesOf(blobs[..i + 1]);
      assert done == DeletesOf(blobs[..i]) + [DeleteRequest(blobs[i].name)];
      assert done[..|done| - 1] == DeletesOf(blobs[..i]);
      i := i + 1;
    }
    assert blobs[..i] == blobs;
  }

  /** An upload loop: one `PushFile` per request, in order. */
  method PushFiles(dir: LocalDirectory, container: BlobContainer, uploads: seq<Request>)
    requires forall k :: 0 <= k < |uploads| ==> uploads[k].UploadRequest? && uploads[k].name in dir.files
    modifies container
    ensures Readable(uploads, dir.files)
    ensures container.log == old(container.log) + uploads
    ensures container.State() == PerformAll(old(container.State()), uploads, dir.files)
  {
    var i := 0;
    while i < |uploads|
      invariant 0 <= i <= |uploads|
      invariant Readable(uploads[..i], dir.files)
      invariant container.log == old(container.log) + uploads[..i]
      invariant container.State() == PerformAll(old(container.State()), uploads[..i], dir.files)
    {
      PushFile(dir, container, uploads[i].name);
      assert uploads[..i + 1][..i] == uploads[..i];
      i := i + 1;
    }
    assert uploads[..i] == uploads;
  }

  /** Issuing the plan is issuing its four segments one after the other. */
  lemma PlanInSegments(s: StoreState, c: Classification, settings: SyncSettings, files: map<string, Bytes>,
                       dels: seq<Request>, forced: seq<Request>)
    requires dels == if HasFlag(settings, Delete) then DeletesOf(c.onlyRemote) else []
    requires forced == if HasFlag(settings, Force) then UploadsOfPairs(c.identical) else []
    requires Readable(dels, files) && Readable(UploadsOfPairs(c.differs), files)
    requires Readable(UploadsOfFiles(c.onlyLocal), files) && Readable(forced, files)
    ensures Readable(PushPlan(c, settings), files)
    ensures PushPlan(c, settings) == dels + UploadsOfPairs(c.differs) + UploadsOfFiles(c.onlyLocal) + forced
    ensures PerformAll(s, PushPlan(c, settings), files)
      == PerformAll(PerformAll(PerformAll(PerformAll(s, dels, files), UploadsOfPairs(c.differs), files),
                               UploadsOfFiles(c.onlyLocal), files), forced, files)
  {
    var d, l := UploadsOfPairs(c.differs), UploadsOfFiles(c.onlyLocal);
    PerformAllConcat(s, dels, d, files);
    PerformAllConcat(s, dels + d, l, files);
    PerformAllConcat(s, dels + d + l, forced, files);
  }

  lemma LogInSegments<T>(log: seq<T>, a: seq<T>, b: seq<T>, c: seq<T>, d: seq<T>)
    ensures log + a + b + c + d == log + (a + b + c + d)
  {
  }

  /** `Sync`: classify, then issue the push plan against the container.
      Console output is left out. */
  method Sync(listing: seq<RemoteItem>, dir: LocalDirectory, paths: seq<string>, recursive: bool,
              settings: SyncSettings, container: BlobContainer)
    requires Enumerated(paths, dir.files)
    modifies container
    ensures Readable(PushPlan(SyncInfoOf(listing, dir.files, paths, recursive), settings), dir.files)
    ensures var plan := PushPlan(SyncInfoOf(listing, dir.files, paths, recursive), settings);
      && container.log == old(container.log) + plan
      && container.State() == PerformAll(old(container.State()), plan, dir.files)
  {
    var info := GetSyncInfo(listing, dir, paths, false, recursive);
    ghost var c := info.Value();
    ghost var files := dir.files;
    PlanIsReadable(listing, files, paths, recursive, settings);
    ghost var s0, log0 := container.State(), container.log;

    ghost var dels: seq<Request> := [];
    if HasFlag(settings, Delete) {
      DeleteBlobs(container, info.onlyRemote, files);
      dels := DeletesOf(c.onlyRemote);
    }
    ghost var s1, log1 := container.State(), container.log;
    assert log1 == log0 + dels by { assert log0 + [] == log0; }
    var differs := UploadsOfPairs(info.differs);
    PushFiles(dir, container, differs);
    ghost var s2, log2 := container.State(), container.log;
    var onlyLocal := UploadsOfFiles(info.onlyLocal);
    PushFiles(dir, container, onlyLocal);
    ghost var s3, log3 := container.State(), container.log;
    var forced: seq<Request> := [];
    if HasFlag(settings, Force) {
      forced := UploadsOfPairs(info.identical);
      PushFiles(dir, container, forced);
    }
    assert differs == UploadsOfPairs(c.differs) && onlyLocal == UploadsOfFiles(c.onlyLocal);
    LogInSegments(log0, dels, differs, onlyLocal, forced);
    PlanInSegments(s0, c, settings, files, dels, forced);
  }
}
