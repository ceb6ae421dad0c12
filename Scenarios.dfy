/** Concrete runs of the engine and the pull driver on one-blob trees. */
module Scenarios {
  import opened BlobTypes
  import opened SyncInfo
  import opened LocalFiles
  import opened BlobSyncCore
  import opened Downloader
  import opened BlobStore
  import Uploader

  const Xyz: Bytes := [0x78, 0x79, 0x7A]
  const Abc: Bytes := [0x61, 0x62, 0x63]

  /** A blob "a.txt" holding `Xyz`, listed with its digest and length. */
  const Listing: seq<RemoteItem> := [RemoteItem("a.txt", Fingerprint(Xyz), 3)]
  const Remote: map<string, Bytes> := map["a.txt" := Xyz]

  lemma PlainName()
    ensures Normalize("a.txt") == "a.txt"
  {
    NormalizeIsCanonical("a.txt");
    assert forall i :: 0 <= i < |"a.txt"| ==> "a.txt"[i] != '\\';
  }

  /** The local pass over the one file "a.txt" adds nothing, because the
      blob has that name. */
  lemma LocalPassOfListedName(files: map<string, Bytes>)
    requires "a.txt" in files
    ensures Enumerated(["a.txt"], files)
    ensures NormalizeAll(Enumerate(["a.txt"], true)) == ["a.txt"]
    ensures LocalPass(["a.txt"], RemoteNames(Listing), files) == []
  {
    PlainName();
    assert RemoteNames(Listing) == {"a.txt"} by { assert Listing[0].name == "a.txt"; }
  }

  /** Nothing local: the blob is remote-only. */
  lemma MissingFileIsRemoteOnly()
    ensures ClassifyRemote(Listing, map[]) == Classification([BlobRef("a.txt")], [], [], [], Listing)
    ensures SyncInfoOf(Listing, map[], [], true)
      == Classification([BlobRef("a.txt")], [], [], [], Listing)
  {
    assert ClassifyRemote(Listing, map[]) == Step(ClassifyRemote([], map[]), Listing[0], map[]);
    assert LocalPass(NormalizeAll(Enumerate([], true)), RemoteNames(Listing), map[]) == [];
  }

  /** Nothing local: the pull downloads the remote-only blob and the
      verifier accepts. */
  lemma MissingFileIsDownloaded()
    ensures SyncInfoOf(Listing, map[], [], true)
      == Classification([BlobRef("a.txt")], [], [], [], Listing)
    ensures Pull(Listing, map[], [], true, Remote, Default) == Remote
    ensures AllMatch(Listing, Pull(Listing, map[], [], true, Remote, Default))
  {
    MissingFileIsRemoteOnly();
    var c := SyncInfoOf(Listing, map[], [], true);
    var blobs := [BlobRef("a.txt")];
    assert blobs[..0] == [];
    OverwriteExact([], Xyz);
    assert Written(map[], "a.txt", Xyz) == Xyz;
    assert Downloads(map[], blobs, Remote) == Remote;
    assert PullResult(map[], c, Remote, Default) == Remote;
    assert Matches(Listing[0], Remote);
  }

  /** The same bytes locally: the file is identical and the pull leaves it. */
  lemma IdenticalFileIsKept()
    ensures Enumerated(["a.txt"], Remote)
    ensures SyncInfoOf(Listing, Remote, ["a.txt"], true)
      == Classification([], [], [(BlobRef("a.txt"), GetFileData("a.txt", Xyz))], [], Listing)
    ensures Pull(Listing, Remote, ["a.txt"], true, Remote, Default) == Remote
  {
    assert ClassifyRemote(Listing, Remote) == Step(ClassifyRemote([], Remote), Listing[0], Remote);
    LocalPassOfListedName(Remote);
  }

  /** Different bytes of the same length classify as Differs. */
  lemma ChangedFileDiffers()
    ensures Enumerated(["a.txt"], map["a.txt" := Abc])
    ensures SyncInfoOf(Listing, map["a.txt" := Abc], ["a.txt"], true)
      == Classification([], [(BlobRef("a.txt"), GetFileData("a.txt", Abc))], [], [], Listing)
  {
    var local := map["a.txt" := Abc];
    assert Abc != Xyz by { assert Abc[0] != Xyz[0]; }
    FingerprintInjective(Abc, Xyz);
    assert ClassifyRemote(Listing, local) == Step(ClassifyRemote([], local), Listing[0], local);
    LocalPassOfListedName(local);
  }

  /** The pull replaces that file with the blob's bytes. */
  lemma SameLengthDifferentBytesIsReplaced()
    ensures Enumerated(["a.txt"], map["a.txt" := Abc])
    ensures SyncInfoOf(Listing, map["a.txt" := Abc], ["a.txt"], true)
      == Classification([], [(BlobRef("a.txt"), GetFileData("a.txt", Abc))], [], [], Listing)
    ensures Pull(Listing, map["a.txt" := Abc], ["a.txt"], true, Remote, Default) == Remote
  {
    var local := map["a.txt" := Abc];
    ChangedFileDiffers();
    var c := SyncInfoOf(Listing, local, ["a.txt"], true);
    var pairs := [(BlobRef("a.txt"), GetFileData("a.txt", Abc))];
    assert pairs[..0] == [];
    assert Downloads(local, [], Remote) == local;
    assert local - {"a.txt"} == map[];
    assert Written(map[], "a.txt", Xyz) == Xyz;
    assert Replacements(local, pairs, Remote) == Remote;
    assert PullResult(local, c, Remote, Default) == Remote;
  }

  /** A local-only file with an empty container is classified OnlyLocal. */
  lemma LocalOnlyFileIsClassified()
    ensures Enumerated(["b.txt"], map["b.txt" := Abc])
    ensures SyncInfoOf([], map["b.txt" := Abc], ["b.txt"], true)
      == Classification([], [], [], [GetFileData("b.txt", Abc)], [])
  {
    var local := map["b.txt" := Abc];
    assert Normalize("b.txt") == "b.txt" by {
      NormalizeIsCanonical("b.txt");
      assert forall i :: 0 <= i < |"b.txt"| ==> "b.txt"[i] != '\\';
    }
    assert NormalizeAll(Enumerate(["b.txt"], true)) == ["b.txt"];
    assert RemoteNames([]) == {};
    assert ["b.txt"][..0] == [];
    assert LocalPass(["b.txt"], {}, local) == [GetFileData("b.txt", Abc)];
  }

  /** The push uploads that local-only file, and the container then holds
      its bytes. */
  lemma LocalOnlyFileIsUploaded()
    ensures Enumerated(["b.txt"], map["b.txt" := Abc])
    ensures Uploader.PushPlan(SyncInfoOf([], map["b.txt" := Abc], ["b.txt"], true), Uploader.Default)
      == [UploadRequest("b.txt")]
    ensures Uploader.PerformAll(StoreState(map[], map[]), [UploadRequest("b.txt")], map["b.txt" := Abc]).contents
      == map["b.txt" := Abc]
  {
    LocalOnlyFileIsClassified();
    var plan := [UploadRequest("b.txt")];
    assert plan[..0] == [];
  }

  /** A remote-only blob under the Delete bit: the push deletes it and the
      container is left empty; without the bit the push does nothing. */
  lemma RemoteOnlyBlobIsDeleted()
    ensures Uploader.PushPlan(SyncInfoOf(Listing, map[], [], true), Uploader.Delete)
      == [DeleteRequest("a.txt")]
    ensures Uploader.PushPlan(SyncInfoOf(Listing, map[], [], true), Uploader.Default) == []
    ensures Uploader.PerformAll(StoreState(Remote, map[]), [DeleteRequest("a.txt")], map[]).contents == map[]
  {
    assert ClassifyRemote(Listing, map[]) == Step(ClassifyRemote([], map[]), Listing[0], map[]);
    var plan := [DeleteRequest("a.txt")];
    assert plan[..0] == [];
  }

  /** A changed file: the push, without Force, uploads it once. */
  lemma ChangedFileIsUploaded()
    ensures Enumerated(["a.txt"], map["a.txt" := Abc])
    ensures Uploader.PushPlan(SyncInfoOf(Listing, map["a.txt" := Abc], ["a.txt"], true), Uploader.Default)
      == [UploadRequest("a.txt")]
  {
    ChangedFileDiffers();
  }
}
