/** What the classification record says about the two sides it compares:
    where every remote item and every local file ends up, in which order,
    and when the verifier accepts. */
module ClassificationFacts {
  import opened BlobTypes
  import opened SyncInfo
  import opened LocalFiles
  import opened BlobSyncCore

  /** The listing positions of the items whose verdict is `v`, in listing order. */
  function Selected(listing: seq<RemoteItem>, files: map<string, Bytes>, v: Verdict): (ps: seq<nat>)
  {
    Positions(listing, (x: RemoteItem) => Classify(x, files) == v)
  }

  lemma SelectedStep(listing: seq<RemoteItem>, files: map<string, Bytes>, v: Verdict)
    requires listing != []
    ensures Selected(listing, files, v)
      == Selected(listing[..|listing| - 1], files, v)
         + (if Classify(listing[|listing| - 1], files) == v then [|listing| - 1] else [])
  {
  }

  /** One listing step appends to OnlyRemote exactly when the item has no
      local file. */
  lemma OnlyRemoteStep(listing: seq<RemoteItem>, files: map<string, Bytes>)
    requires listing != []
    ensures var last := listing[|listing| - 1];
      ClassifyRemote(listing, files).onlyRemote
      == ClassifyRemote(listing[..|listing| - 1], files).onlyRemote
         + (if Classify(last, files) == MissingLocally then [BlobRef(last.name)] else [])
  {
  }

  /** Extending the listing by `last` either extends both the selected
      positions and the category list by one, or neither; either way the
      list still follows the selected positions. */
  lemma ExtendFollows(pre: seq<RemoteItem>, last: RemoteItem, ps: seq<nat>, pps: seq<nat>,
                      blobs: seq<BlobRef>, pblobs: seq<BlobRef>)
    requires |pblobs| == |pps|
    requires forall k :: 0 <= k < |pps| ==> pps[k] < |pre| && pblobs[k] == BlobRef(pre[pps[k]].name)
    requires (blobs == pblobs + [BlobRef(last.name)] && ps == pps + [|pre|]) || (blobs == pblobs && ps == pps)
    ensures |blobs| == |ps|
    ensures forall k :: 0 <= k < |ps| ==> blobs[k] == BlobRef((pre + [last])[ps[k]].name)
  {
    forall k | 0 <= k < |ps| ensures blobs[k] == BlobRef((pre + [last])[ps[k]].name) {
      if k < |pps| {
        assert blobs[k] == pblobs[k] && ps[k] == pps[k] && (pre + [last])[pps[k]] == pre[pps[k]];
      }
    }
  }

  /** OnlyRemote holds, in listing order, exactly the items with no local file. */
  lemma {:induction false} OnlyRemoteFollowsListing(listing: seq<RemoteItem>, files: map<string, Bytes>)
    ensures var blobs, ps := ClassifyRemote(listing, files).onlyRemote, Selected(listing, files, MissingLocally);
      |blobs| == |ps|
      && forall k :: 0 <= k < |ps| ==> blobs[k] == BlobRef(listing[ps[k]].name)
  {
    if listing != [] {
      var pre, last := listing[..|listing| - 1], listing[|listing| - 1];
      OnlyRemoteFollowsListing(pre, files);
      SelectedStep(listing, files, MissingLocally);
      OnlyRemoteStep(listing, files);
      assert pre + [last] == listing;
      ExtendFollows(pre, last, Selected(listing, files, MissingLocally), Selected(pre, files, MissingLocally),
                    ClassifyRemote(listing, files).onlyRemote, ClassifyRemote(pre, files).onlyRemote);
    }
  }

  /** The Identical list for `v == Identical`, the Differs list otherwise. */
  function Paired(c: Classification, v: Verdict): (entries: seq<(BlobRef, FileData)>)
  {
    if v == Identical then c.identical else c.differs
  }

  /** One listing step appends to the paired list of verdict `v` exactly when
      the item has that verdict. */
  lemma PairedStep(prev: Classification, item: RemoteItem, files: map<string, Bytes>, v: Verdict)
    requires v != MissingLocally
    ensures Paired(Step(prev, item, files), v)
      == Paired(prev, v) + (if Classify(item, files) == v then [Entry(item, files)] else [])
  {
  }

  /** `ExtendFollows` for a list of (blob, file data) entries. */
  lemma ExtendPairedFollows(pre: seq<RemoteItem>, last: RemoteItem, files: map<string, Bytes>,
                            ps: seq<nat>, pps: seq<nat>,
                            entries: seq<(BlobRef, FileData)>, pentries: seq<(BlobRef, FileData)>)
    requires |pentries| == |pps|
    requires forall k :: 0 <= k < |pps| ==>
      pps[k] < |pre| && pre[pps[k]].name in files && pentries[k] == Entry(pre[pps[k]], files)
    requires || (last.name in files && entries == pentries + [Entry(last, files)] && ps == pps + [|pre|])
             || (entries == pentries && ps == pps)
    ensures |entries| == |ps|
    ensures forall k :: 0 <= k < |ps| ==>
      (pre + [last])[ps[k]].name in files && entries[k] == Entry((pre + [last])[ps[k]], files)
  {
    forall k | 0 <= k < |ps|
      ensures (pre + [last])[ps[k]].name in files && entries[k] == Entry((pre + [last])[ps[k]], files)
    {
      if k < |pps| {
        assert entries[k] == pentries[k] && ps[k] == pps[k] && (pre + [last])[pps[k]] == pre[pps[k]];
      }
    }
  }

  /** Identical (or Differs, for `v == Differs`) holds, in listing order,
      exactly the items of verdict `v`, each paired with its file's descriptor. */
  lemma {:induction false} PairedFollowListing(listing: seq<RemoteItem>, files: map<string, Bytes>, v: Verdict)
    requires v != MissingLocally
    ensures var entries, ps := Paired(ClassifyRemote(listing, files), v), Selected(listing, files, v);
      |entries| == |ps|
      && forall k :: 0 <= k < |ps| ==> listing[ps[k]].name in files && entries[k] == Entry(listing[ps[k]], files)
  {
    if listing != [] {
      var pre, last := listing[..|listing| - 1], listing[|listing| - 1];
      PairedFollowListing(pre, files, v);
      SelectedStep(listing, files, v);
      PairedStep(ClassifyRemote(pre, files), last, files, v);
      assert ClassifyRemote(listing, files) == Step(ClassifyRemote(pre, files), last, files);
      assert pre + [last] == listing;
      ExtendPairedFollows(pre, last, files, Selected(listing, files, v), Selected(pre, files, v),
                          Paired(ClassifyRemote(listing, files), v), Paired(ClassifyRemote(pre, files), v));
    }
  }

  /** Every remote item is selected into exactly the category of its verdict. */
  lemma ExactlyOneCategory(listing: seq<RemoteItem>, files: map<string, Bytes>, i: nat, v: Verdict)
    requires i < |listing|
    ensures i in Selected(listing, files, v) <==> Classify(listing[i], files) == v
  {
    var ps := Selected(listing, files, v);
    if i in ps {
      var k :| 0 <= k < |ps| && ps[k] == i;
    }
  }

  /** A blob handle is in OnlyRemote exactly when some listed item has its
      name and no local file does. */
  lemma OnlyRemoteIff(listing: seq<RemoteItem>, files: map<string, Bytes>, name: string)
    ensures BlobRef(name) in ClassifyRemote(listing, files).onlyRemote
      <==> name in RemoteNames(listing) && name !in files
  {
    if BlobRef(name) in ClassifyRemote(listing, files).onlyRemote {
      OnlyRemoteListed(listing, files, name);
    }
    if name in RemoteNames(listing) && name !in files {
      var i :| 0 <= i < |listing| && listing[i].name == name;
      MissingIsOnlyRemote(listing, files, i);
    }
  }

  lemma OnlyRemoteListed(listing: seq<RemoteItem>, files: map<string, Bytes>, name: string)
    requires BlobRef(name) in ClassifyRemote(listing, files).onlyRemote
    ensures name in RemoteNames(listing) && name !in files
  {
    var c, ps := ClassifyRemote(listing, files), Selected(listing, files, MissingLocally);
    OnlyRemoteFollowsListing(listing, files);
    var k :| 0 <= k < |c.onlyRemote| && c.onlyRemote[k] == BlobRef(name);
    var i := ps[k];
    assert i < |listing| && Classify(listing[i], files) == MissingLocally;
    assert listing[i].name == name;
  }

  lemma MissingIsOnlyRemote(listing: seq<RemoteItem>, files: map<string, Bytes>, i: nat)
    requires i < |listing| && listing[i].name !in files
    ensures BlobRef(listing[i].name) in ClassifyRemote(listing, files).onlyRemote
  {
    var c, ps := ClassifyRemote(listing, files), Selected(listing, files, MissingLocally);
    OnlyRemoteFollowsListing(listing, files);
    assert Classify(listing[i], files) == MissingLocally;
    assert i in ps;
    var k :| 0 <= k < |ps| && ps[k] == i;
    assert c.onlyRemote[k] == BlobRef(listing[i].name);
  }

  /** An entry is in Identical (Differs, for `v == Differs`) exactly when
      it pairs some listed item of that verdict with its file's descriptor;
      with `IdenticalIffSameHashAndLength` this says Identical means equal
      digest and equal length. */
  lemma PairedIff(listing: seq<RemoteItem>, files: map<string, Bytes>,
                  entry: (BlobRef, FileData), v: Verdict)
    requires v != MissingLocally
    ensures entry in Paired(ClassifyRemote(listing, files), v) <==>
      exists i :: 0 <= i < |listing| && listing[i].name in files
        && entry == Entry(listing[i], files) && Classify(listing[i], files) == v
  {
    var entries := Paired(ClassifyRemote(listing, files), v);
    PairedFollowListing(listing, files, v);
    var ps := Selected(listing, files, v);
    if entry in entries {
      var k :| 0 <= k < |entries| && entries[k] == entry;
      assert Classify(listing[ps[k]], files) == v;
    }
    if exists i :: 0 <= i < |listing| && listing[i].name in files
        && entry == Entry(listing[i], files) && Classify(listing[i], files) == v {
      var i :| 0 <= i < |listing| && listing[i].name in files
        && entry == Entry(listing[i], files) && Classify(listing[i], files) == v;
      assert i in ps;
      var k :| 0 <= k < |ps| && ps[k] == i;
      assert entries[k] == entry;
    }
  }

  lemma AllMatchStep(listing: seq<RemoteItem>, files: map<string, Bytes>)
    requires listing != []
    ensures AllMatch(listing, files)
      <==> AllMatch(listing[..|listing| - 1], files) && Matches(listing[|listing| - 1], files)
  {
    assert forall i :: 0 <= i < |listing| - 1 ==> listing[..|listing| - 1][i] == listing[i];
  }

  /** The verifier accepts the local tree the classification was computed
      against exactly when nothing was missing and nothing differed. */
  lemma {:induction false} VerifyIffInSync(listing: seq<RemoteItem>, files: map<string, Bytes>)
    ensures AllMatch(listing, files) <==>
      ClassifyRemote(listing, files).onlyRemote == [] && ClassifyRemote(listing, files).differs == []
  {
    if listing != [] {
      var pre, last := listing[..|listing| - 1], listing[|listing| - 1];
      VerifyIffInSync(pre, files);
      OnlyRemoteStep(listing, files);
      assert ClassifyRemote(listing, files) == Step(ClassifyRemote(pre, files), last, files);
      PairedStep(ClassifyRemote(pre, files), last, files, Differs);
      assert Matches(last, files) <==> Classify(last, files) == Identical;
      AllMatchStep(listing, files);
    }
  }

  /** The positions of the enumerated names that no blob carries. */
  function Unseen(names: seq<string>, seen: set<string>): (ps: seq<nat>)
  {
    Positions(names, (x: string) => x !in seen)
  }

  /** OnlyLocal holds, in enumeration order, a descriptor for exactly the
      enumerated names outside the seen set. */
  lemma {:induction false} LocalPassFollowsEnumeration(names: seq<string>, seen: set<string>,
                                                       files: map<string, Bytes>)
    requires forall i :: 0 <= i < |names| ==> names[i] in files
    ensures var r, ps := LocalPass(names, seen, files), Unseen(names, seen);
      |r| == |ps|
      && forall k :: 0 <= k < |ps| ==> r[k] == GetFileData(names[ps[k]], files[names[ps[k]]])
  {
    if names != [] {
      var pre := names[..|names| - 1];
      assert forall i :: 0 <= i < |pre| ==> pre[i] == names[i];
      LocalPassFollowsEnumeration(pre, seen, files);
      var r, ps := LocalPass(names, seen, files), Unseen(names, seen);
      var pps := Unseen(pre, seen);
      forall k | 0 <= k < |ps| ensures r[k] == GetFileData(names[ps[k]], files[names[ps[k]]]) {
        if k < |pps| {
          assert names[pps[k]] == pre[pps[k]];
        }
      }
    }
  }

  lemma LocalPassIff(names: seq<string>, seen: set<string>, files: map<string, Bytes>, file: FileData)
    requires forall i :: 0 <= i < |names| ==> names[i] in files
    ensures file in LocalPass(names, seen, files) <==>
      exists j :: 0 <= j < |names| && names[j] !in seen && file == GetFileData(names[j], files[names[j]])
  {
    var r := LocalPass(names, seen, files);
    LocalPassFollowsEnumeration(names, seen, files);
    var ps := Unseen(names, seen);
    if file in r {
      var k :| 0 <= k < |r| && r[k] == file;
      assert names[ps[k]] !in seen;
    }
    if exists j :: 0 <= j < |names| && names[j] !in seen && file == GetFileData(names[j], files[names[j]]) {
      var j :| 0 <= j < |names| && names[j] !in seen && file == GetFileData(names[j], files[names[j]]);
      assert j in ps;
      var k :| 0 <= k < |ps| && ps[k] == j;
      assert r[k] == file;
    }
  }

  /** A descriptor is in OnlyLocal exactly when it describes an enumerated
      file whose slash-normalized name is not the name of any listed blob. */
  lemma OnlyLocalIff(listing: seq<RemoteItem>, files: map<string, Bytes>, paths: seq<string>,
                     recursive: bool, file: FileData)
    requires Enumerated(paths, files)
    ensures var found := Enumerate(paths, recursive);
      file in SyncInfoOf(listing, files, paths, recursive).onlyLocal <==>
      exists j :: 0 <= j < |found| && Normalize(found[j]) in files
        && Normalize(found[j]) !in RemoteNames(listing)
        && file == GetFileData(Normalize(found[j]), files[Normalize(found[j])])
  {
    var found := Enumerate(paths, recursive);
    EnumerationNamesExist(paths, files, recursive);
    var names := NormalizeAll(found);
    assert |names| == |found| && forall j :: 0 <= j < |found| ==> names[j] == Normalize(found[j]);
    assert SyncInfoOf(listing, files, paths, recursive).onlyLocal == LocalPass(names, RemoteNames(listing), files);
    LocalPassIff(names, RemoteNames(listing), files, file);
  }

  /** An enumerated local file that shares its name with a listed blob is
      never put in OnlyLocal; it is paired with that blob in Identical or
      Differs instead. */
  lemma SharedNameIsPaired(listing: seq<RemoteItem>, files: map<string, Bytes>, paths: seq<string>,
                           recursive: bool, j: nat)
    requires Enumerated(paths, files)
    requires j < |Enumerate(paths, recursive)|
    requires Normalize(Enumerate(paths, recursive)[j]) in RemoteNames(listing)
    ensures var name := Normalize(Enumerate(paths, recursive)[j]);
      var c := SyncInfoOf(listing, files, paths, recursive);
      && name in files
      && (forall k :: 0 <= k < |c.onlyLocal| ==> c.onlyLocal[k].name != name)
      && exists e :: (e in c.identical || e in c.differs) && e.0 == BlobRef(name)
  {
    var found := Enumerate(paths, recursive);
    var name := Normalize(found[j]);
    var c := SyncInfoOf(listing, files, paths, recursive);
    assert found[j] in paths;
    var i :| 0 <= i < |listing| && listing[i].name == name;
    forall k | 0 <= k < |c.onlyLocal| ensures c.onlyLocal[k].name != name {
      OnlyLocalIff(listing, files, paths, recursive, c.onlyLocal[k]);
    }
    var e := Entry(listing[i], files);
    var v := Classify(listing[i], files);
    PairedIff(listing, files, e, v);
  }

  /** Every Identical and Differs entry names a file that exists. */
  lemma {:induction false} PairedNamesExist(listing: seq<RemoteItem>, files: map<string, Bytes>)
    ensures forall k :: 0 <= k < |ClassifyRemote(listing, files).identical| ==>
      ClassifyRemote(listing, files).identical[k].0.name in files
    ensures forall k :: 0 <= k < |ClassifyRemote(listing, files).differs| ==>
      ClassifyRemote(listing, files).differs[k].0.name in files
  {
    if listing != [] {
      PairedNamesExist(listing[..|listing| - 1], files);
    }
  }
}
