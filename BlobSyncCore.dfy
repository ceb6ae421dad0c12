/** The reconciliation engine: it classifies every remote listing entry
    against the local tree, collects the local files no blob names, and
    re-checks the whole listing after a pull. */
module BlobSyncCore {
  import opened BlobTypes
  import opened SyncInfo
  import opened LocalFiles

  // ---------------------------------------------------------------------
  // Fingerprints and the comparison of one pair
  // ---------------------------------------------------------------------

  /** The descriptor of the file at root-relative `name` whose bytes are `content`. */
  function GetFileData(name: string, content: Bytes): (d: FileData)
  {
    FileData(name, |content|, Fingerprint(content))
  }

  /** Two descriptors of the same name are equal exactly when the files are. */
  lemma FileDataIdentifiesContent(name: string, a: Bytes, b: Bytes)
    ensures GetFileData(name, a) == GetFileData(name, b) <==> a == b
  {
  }

  /** The engine's equality test: same digest and same length. */
  predicate SameContent(file: FileData, item: RemoteItem)
  {
    file.md5 == item.contentHash && file.length == item.length
  }

  /** Where one remote item goes. */
  datatype Verdict = MissingLocally | Identical | Differs

  function Classify(item: RemoteItem, files: map<string, Bytes>): (v: Verdict)
  {
    if item.name !in files then MissingLocally
    else if SameContent(GetFileData(item.name, files[item.name]), item) then Identical
    else Differs
  }

  /** The pair recorded in Identical or Differs for a remote item with a local file. */
  function Entry(item: RemoteItem, files: map<string, Bytes>): (r: (BlobRef, FileData))
    requires item.name in files
  {
    (BlobRef(item.name), GetFileData(item.name, files[item.name]))
  }

  lemma IdenticalIffSameHashAndLength(item: RemoteItem, files: map<string, Bytes>)
    ensures Classify(item, files) == MissingLocally <==> item.name !in files
    ensures Classify(item, files) == Identical <==>
      item.name in files && Fingerprint(files[item.name]) == item.contentHash
      && |files[item.name]| == item.length
    ensures (item.name in files && Fingerprint(files[item.name]) == item.contentHash
             && |files[item.name]| != item.length) ==> Classify(item, files) == Differs
  {
  }

  // ---------------------------------------------------------------------
  // The specification of the classification
  // ---------------------------------------------------------------------

  /** The record after the listing pass has handled one more item. */
  function Step(prev: Classification, item: RemoteItem, files: map<string, Bytes>): (next: Classification)
  {
    var next := prev.(allRemote := prev.allRemote + [item]);
    match Classify(item, files)
    case MissingLocally => next.(onlyRemote := prev.onlyRemote + [BlobRef(item.name)])
    case Identical => next.(identical := prev.identical + [Entry(item, files)])
    case Differs => next.(differs := prev.differs + [Entry(item, files)])
  }

  /** The record after the listing pass has seen `listing`. */
  function ClassifyRemote(listing: seq<RemoteItem>, files: map<string, Bytes>): (c: Classification)
    ensures c.allRemote == listing
    ensures c.onlyLocal == []
    ensures |c.onlyRemote| + |c.identical| + |c.differs| == |listing|
  {
    if listing == [] then Empty
    else Step(ClassifyRemote(listing[..|listing| - 1], files), listing[|listing| - 1], files)
  }

  function RemoteNames(listing: seq<RemoteItem>): (names: set<string>)
  {
    set i | 0 <= i < |listing| :: listing[i].name
  }

  /** The environment's promise: each enumerated path names an existing file. */
  predicate Enumerated(paths: seq<string>, files: map<string, Bytes>)
  {
    forall i :: 0 <= i < |paths| ==> Normalize(paths[i]) in files
  }

  /** The per-path `Replace("\\", "/")` of the local pass. */
  function NormalizeAll(paths: seq<string>): (r: seq<string>)
  {
    seq(|paths|, i requires 0 <= i < |paths| => Normalize(paths[i]))
  }

  /** The normalized names are canonical: none holds a backslash, and
      normalizing them again changes nothing. */
  lemma NormalizeAllIsCanonical(paths: seq<string>)
    ensures forall i :: 0 <= i < |NormalizeAll(paths)| ==> '\\' !in NormalizeAll(paths)[i]
    ensures NormalizeAll(NormalizeAll(paths)) == NormalizeAll(paths)
    ensures (forall i :: 0 <= i < |paths| ==> '\\' !in paths[i]) ==> NormalizeAll(paths) == paths
  {
    forall i | 0 <= i < |paths| ensures '\\' !in NormalizeAll(paths)[i] && Normalize(Normalize(paths[i])) == Normalize(paths[i])
      && ('\\' !in paths[i] ==> Normalize(paths[i]) == paths[i])
    {
      NormalizeIsCanonical(paths[i]);
    }
  }

  /** The OnlyLocal list the local pass builds from the normalized names. */
  function LocalPass(names: seq<string>, seen: set<string>, files: map<string, Bytes>): (onlyLocal: seq<FileData>)
    requires forall i :: 0 <= i < |names| ==> names[i] in files
  {
    if names == [] then []
    else
      var name := names[|names| - 1];
      LocalPass(names[..|names| - 1], seen, files)
        + (if name in seen then [] else [GetFileData(name, files[name])])
  }

  lemma EnumerationNamesExist(paths: seq<string>, files: map<string, Bytes>, recursive: bool)
    requires Enumerated(paths, files)
    ensures forall i :: 0 <= i < |Enumerate(paths, recursive)| ==>
      NormalizeAll(Enumerate(paths, recursive))[i] in files
  {
    var found := Enumerate(paths, recursive);
    forall i | 0 <= i < |found| ensures NormalizeAll(found)[i] in files {
      assert found[i] in paths;
    }
  }

  /** The record a whole reconciliation pass returns. */
  function SyncInfoOf(listing: seq<RemoteItem>, files: map<string, Bytes>,
                      paths: seq<string>, recursive: bool): (c: Classification)
    requires Enumerated(paths, files)
  {
    EnumerationNamesExist(paths, files, recursive);
    ClassifyRemote(listing, files).(
      onlyLocal := LocalPass(NormalizeAll(Enumerate(paths, recursive)), RemoteNames(listing), files))
  }

  // ---------------------------------------------------------------------
  // Positions: the in-order selection of the elements satisfying p
  // ---------------------------------------------------------------------

  function Positions<T>(s: seq<T>, p: T -> bool): (ps: seq<nat>)
    ensures forall k :: 0 <= k < |ps| ==> ps[k] < |s| && p(s[ps[k]])
    ensures forall k1, k2 :: 0 <= k1 < k2 < |ps| ==> ps[k1] < ps[k2]
    ensures forall i :: 0 <= i < |s| && p(s[i]) ==> i in ps
  {
    if s == [] then []
    else
      var prev := Positions(s[..|s| - 1], p);
      assert forall i :: 0 <= i < |s| - 1 ==> s[..|s| - 1][i] == s[i];
      prev + (if p(s[|s| - 1]) then [|s| - 1] else [])
  }

  // ---------------------------------------------------------------------
  // The engine
  // ---------------------------------------------------------------------

  /** `GetSyncInfoAsync`: the listing pass, then the local pass. Writing to
      the console when `verbose` is left out. */
  method GetSyncInfo(listing: seq<RemoteItem>, dir: LocalDirectory, paths: seq<string>,
                     verbose: bool, recursive: bool) returns (info: BlobSyncInfo)
    requires Enumerated(paths, dir.files)
    ensures fresh(info)
    ensures info.Value() == SyncInfoOf(listing, dir.files, paths, recursive)
  {
    info := new BlobSyncInfo();
    var seen := AddRemoteItems(info, listing, dir.files);
    EnumerationNamesExist(paths, dir.files, recursive);
    AddLocalFiles(info, NormalizeAll(Enumerate(paths, recursive)), seen, dir.files);
  }

  /** The listing pass: every item is recorded in the full listing and in
      the one category its comparison picks; returns the seen-name set. */
  method AddRemoteItems(info: BlobSyncInfo, listing: seq<RemoteItem>, files: map<string, Bytes>)
    returns (seen: set<string>)
    requires info.Value() == Empty
    modifies info
    ensures info.Value() == ClassifyRemote(listing, files)
    ensures seen == RemoteNames(listing)
  {
    seen := {};
    var i := 0;
    while i < |listing|
      invariant 0 <= i <= |listing|
      invariant info.Value() == ClassifyRemote(listing[..i], files)
      invariant seen == RemoteNames(listing[..i])
    {
      var item := listing[i];
      PrefixStep(listing, i, files);
      AddRemoteItem(info, item, files);
      seen := seen + {item.name};
      i := i + 1;
    }
    assert listing[..i] == listing;
  }

  /** Growing the listing prefix by one item is one listing step. */
  lemma PrefixStep(listing: seq<RemoteItem>, i: nat, files: map<string, Bytes>)
    requires i < |listing|
    ensures ClassifyRemote(listing[..i + 1], files) == Step(ClassifyRemote(listing[..i], files), listing[i], files)
    ensures RemoteNames(listing[..i + 1]) == RemoteNames(listing[..i]) + {listing[i].name}
  {
    var prefix := listing[..i + 1];
    assert prefix[..|prefix| - 1] == listing[..i] && prefix[|prefix| - 1] == listing[i];
    assert forall k :: 0 <= k < i ==> prefix[k] == listing[..i][k];
  }

  /** One iteration of the listing pass. */
  method AddRemoteItem(info: BlobSyncInfo, item: RemoteItem, files: map<string, Bytes>)
    modifies info
    ensures info.Value() == Step(old(info.Value()), item, files)
  {
    info.AddRemoteItem(item);
    if item.name in files {
      var fileInfo := GetFileData(item.name, files[item.name]);
      if fileInfo.md5 == item.contentHash && fileInfo.length == item.length {
        info.AddIdentical(BlobRef(item.name), fileInfo);
      } else {
        info.AddDiffers(BlobRef(item.name), fileInfo);
      }
    } else {
      info.AddOnlyRemote(BlobRef(item.name));
    }
  }

  /** The local pass: every enumerated name no blob carries is described
      and appended to OnlyLocal. */
  method AddLocalFiles(info: BlobSyncInfo, names: seq<string>, seen: set<string>,
                       files: map<string, Bytes>)
    requires forall i :: 0 <= i < |names| ==> names[i] in files
    requires info.onlyLocal == []
    modifies info
    ensures info.Value() == old(info.Value()).(onlyLocal := LocalPass(names, seen, files))
  {
    var j := 0;
    while j < |names|
      invariant 0 <= j <= |names|
      invariant info.Value() == old(info.Value()).(onlyLocal := LocalPass(names[..j], seen, files))
    {
      var fileName := names[j];
      assert names[..j + 1][..j] == names[..j];
      if fileName !in seen {
        var fileInfo := GetFileData(fileName, files[fileName]);
        info.AddOnlyLocal(fileInfo);
      }
      j := j + 1;
    }
    assert names[..j] == names;
  }

  /** A remote item the verifier accepts: the local file exists and has the
      item's digest and length. */
  predicate Matches(item: RemoteItem, files: map<string, Bytes>)
  {
    item.name in files && SameContent(GetFileData(item.name, files[item.name]), item)
  }

  predicate AllMatch(items: seq<RemoteItem>, files: map<string, Bytes>)
  {
    forall i :: 0 <= i < |items| ==> Matches(items[i], files)
  }

  /** `Verify`: walks the full remote listing and stops at the first item
      whose local file is missing or differs. */
  method Verify(info: BlobSyncInfo, dir: LocalDirectory, verbose: bool) returns (ok: bool)
    ensures ok == AllMatch(info.allRemoteItems, dir.files)
    ensures !ok ==>
              exists k :: 0 <= k < |info.allRemoteItems|
                && !Matches(info.allRemoteItems[k], dir.files)
                && forall j :: 0 <= j < k ==> Matches(info.allRemoteItems[j], dir.files)
  {
    var items := info.allRemoteItems;
    var i := 0;
    while i < |items|
      invariant 0 <= i <= |items|
      invariant forall j :: 0 <= j < i ==> Matches(items[j], dir.files)
    {
      var item := items[i];
      if item.name in dir.files {
        var fileInfo := GetFileData(item.name, dir.files[item.name]);
        if fileInfo.md5 != item.contentHash || fileInfo.length != item.length {
          return false;
        }
      } else {
        return false;
      }
      i := i + 1;
    }
    return true;
  }
}
