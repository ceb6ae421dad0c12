# BlobSync core in Dafny

BlobSync keeps a local directory tree and a blob container in step. It has
three parts, and this project models them:

- **The reconciliation engine** (`BlobSyncCore`). It walks the container's
  listing and then the local enumeration. It files every item into one of
  four lists of the classification record `BlobSyncInfo`:
  - OnlyRemote: a blob with no local file under its name;
  - Identical: a blob whose local file has the same MD5 digest and the same
    length;
  - Differs: a blob whose local file differs in digest or length;
  - OnlyLocal: an enumerated file whose slash-normalized name is not a blob
    name.

  The record also keeps the full listing (`AllRemoteItems`). `Verify`
  walks that listing again and stops at the first missing or changed file.
- **The push driver** (`Uploader.Sync`). Under the `Delete` bit it deletes
  remote-only blobs. It then uploads changed files and local-only files,
  and under the `Force` bit it also re-uploads identical files. Before
  every upload, `ApplyProperties` resolves the blob's HTTP headers: the
  content type comes from a four-entry extension map, and every other
  header is carried over.
- **The pull driver** (`Downloader.Sync`). It downloads remote-only blobs
  and replaces changed files by deleting them and downloading them again.
  Under the `Delete` bit it deletes local-only files. It returns `Verify`'s
  verdict.

The model keeps the source's form:

- `BlobSyncInfo`, the local directory (`LocalDirectory`) and the container
  (`BlobContainer`) are classes whose `seq` and `map` fields the methods
  change in place.
- The engine and the drivers are methods with loops. Each is proved
  against a pure specification function: `SyncInfoOf`, `PushPlan` with
  `PerformAll`, and `Pull`.
- Lemmas then state what the source promises about those functions.

The outside world becomes values:

- the container listing is a `seq<RemoteItem>`;
- the local tree is a `map<string, Bytes>` plus the recursive enumeration
  of its paths, as a `seq<string>`;
- the blob contents are the container's `contents` map.

MD5 followed by base64 is one injective fingerprint, `Fingerprint`. It is
a datatype constructor applied to the bytes, so equal digests mean equal
bytes.

Modules, in dependency order: `Wrappers`, `BlobTypes`, `SyncInfo`,
`LocalFiles`, `BlobSyncCore`, `ClassificationFacts`, `BlobStore`,
`Uploader`, `PushFacts`, `Downloader`, `PullFacts`, `Scenarios`.

Points where the model fills in what the code leaves implicit:

- `BlobSyncInfo.cs` declares only the four category lists, yet the engine
  appends to and reads a fifth list, `AllRemoteItems`. The model adds it.
- The drivers call `GetSyncInfoAsync` with fewer arguments than it
  declares. The model's drivers pass `verbose` and `recursive` explicitly.
- The pull tests only bit 1 with `(settings & Delete) != 0`, and `Force`
  has no effect on a pull (`PullFacts.ForceIsIgnored`).
- The code compares the digest and the length in one condition, and
  `Verify` negates exactly that condition. This is proved by
  `BlobSyncCore.IdenticalIffSameHashAndLength` and
  `ClassificationFacts.VerifyIffInSync`.

## Model

| member | source | states |
|---|---|---|
| BlobTypes.FingerprintInjective | BlobSync/BlobSyncCore.cs:170-175 | two byte strings have the same digest exactly when they are equal |
| SyncInfo.BlobSyncInfo.constructor | BlobSync/BlobSyncInfo.cs:8-11 | a fresh record has all four category lists empty, and the added `AllRemoteItems` list is empty too |
| SyncInfo.BlobSyncInfo.AddOnlyRemote | BlobSync/BlobSyncCore.cs:137-138 | appends a blob handle to OnlyRemote; every other list is unchanged |
| SyncInfo.BlobSyncInfo.AddDiffers | BlobSync/BlobSyncCore.cs:129-130 | appends a (blob, file data) pair to Differs; every other list is unchanged |
| SyncInfo.BlobSyncInfo.AddIdentical | BlobSync/BlobSyncCore.cs:123-124 | appends a (blob, file data) pair to Identical; every other list is unchanged |
| SyncInfo.BlobSyncInfo.AddOnlyLocal | BlobSync/BlobSyncCore.cs:153-154 | appends a file descriptor to OnlyLocal; every other list is unchanged |
| SyncInfo.BlobSyncInfo.AddRemoteItem | BlobSync/BlobSyncCore.cs:103 | appends a listing item to AllRemoteItems; every other list is unchanged |
| LocalFiles.Normalize | BlobSync/BlobSyncCore.cs:149 | keeps the length, turns every `\` into `/` and leaves every other character alone |
| LocalFiles.NormalizeIsCanonical | BlobSync/BlobSyncCore.cs:149 | the result has no `\`; normalizing twice equals normalizing once; a name without `\` is unchanged |
| LocalFiles.TopLevel | BlobSync/BlobSyncCore.cs:143-147 | a non-recursive enumeration yields exactly the entries of the recursive one that have no separator, and no more entries than it |
| LocalFiles.OverwritePrefix | BlobSync/Downloader.cs:41-44 | `File.OpenWrite` does not truncate: the new bytes come first, then whatever a longer old file held past them |
| LocalFiles.OverwriteExact | BlobSync/Downloader.cs:41-44 | writing over an absent or shorter file, or over the same bytes, leaves exactly the new bytes |
| LocalFiles.LocalDirectory.WriteFile | BlobSync/Downloader.cs:39-44 | the named file holds the written bytes over its old content; no other file changes |
| LocalFiles.LocalDirectory.DeleteFile | BlobSync/Downloader.cs:53 | removes the named file, which need not exist; no other file changes |
| BlobSyncCore.FileDataIdentifiesContent | BlobSync/BlobSyncCore.cs:161-179 | two descriptors of the same name are equal exactly when the file bytes are equal |
| BlobSyncCore.IdenticalIffSameHashAndLength | BlobSync/BlobSyncCore.cs:114-131 | a missing file means OnlyRemote; Identical holds iff the file exists with equal digest and equal length; equal digest with unequal length is Differs |
| BlobSyncCore.ClassifyRemote | BlobSync/BlobSyncCore.cs:101-140 | the listing pass records the whole listing in AllRemoteItems, adds nothing to OnlyLocal, and the three remote category sizes add up to the listing's size; where each item goes is stated by `ClassificationFacts.ExactlyOneCategory`, `OnlyRemoteFollowsListing` and `PairedFollowListing` |
| BlobSyncCore.NormalizeAllIsCanonical | BlobSync/BlobSyncCore.cs:147-149 | after the per-path normalization no enumerated name holds a `\`, normalizing the list again changes nothing, and a list of names without `\` is left as it is |
| BlobSyncCore.EnumerationNamesExist | BlobSync/BlobSyncCore.cs:147-153 | every normalized name the enumeration yields, recursive or not, is a file of the tree |
| BlobSyncCore.GetSyncInfo | BlobSync/BlobSyncCore.cs:82-159 | returns a fresh record whose lists are the classification `SyncInfoOf` of the listing and the tree |
| BlobSyncCore.AddRemoteItems | BlobSync/BlobSyncCore.cs:96-140 | the listing loop fills the record as `ClassifyRemote` says, and its seen-name set is the set of listed names |
| BlobSyncCore.AddRemoteItem | BlobSync/BlobSyncCore.cs:103-139 | one listing step: records the item and files it into the category its verdict names |
| BlobSyncCore.AddLocalFiles | BlobSync/BlobSyncCore.cs:143-156 | the local loop sets OnlyLocal to the descriptors of the enumerated names not seen in the listing, in enumeration order |
| BlobSyncCore.Verify | BlobSync/BlobSyncCore.cs:51-80 | true exactly when every item of AllRemoteItems has a local file with matching digest and length; when false, some item fails and every earlier one passes |
| ClassificationFacts.OnlyRemoteFollowsListing | BlobSync/BlobSyncCore.cs:101-139 | OnlyRemote lists, in listing order, exactly the items without a local file |
| ClassificationFacts.PairedFollowListing | BlobSync/BlobSyncCore.cs:113-131 | Identical and Differs each list, in listing order, the items of that verdict paired with their file's descriptor |
| ClassificationFacts.ExactlyOneCategory | BlobSync/BlobSyncCore.cs:113-139 | each listing position is selected for exactly the one category its verdict names |
| ClassificationFacts.OnlyRemoteIff | BlobSync/BlobSyncCore.cs:113-139 | a blob handle is in OnlyRemote iff its name is listed and no local file has it |
| ClassificationFacts.PairedIff | BlobSync/BlobSyncCore.cs:113-131 | an entry is in Identical (Differs) iff it pairs a listed item of that verdict with its file's descriptor |
| ClassificationFacts.VerifyIffInSync | BlobSync/BlobSyncCore.cs:53-79 | the verifier accepts a tree iff classifying the listing against it gives empty OnlyRemote and empty Differs |
| ClassificationFacts.LocalPassFollowsEnumeration | BlobSync/BlobSyncCore.cs:147-156 | OnlyLocal lists, in enumeration order, the descriptors of exactly the unseen names |
| ClassificationFacts.LocalPassIff | BlobSync/BlobSyncCore.cs:147-156 | a descriptor is produced by the local loop iff it describes an enumerated name not in the seen set |
| ClassificationFacts.OnlyLocalIff | BlobSync/BlobSyncCore.cs:143-156 | a descriptor is in OnlyLocal iff it describes an enumerated file whose normalized name is not a listed blob name |
| ClassificationFacts.SharedNameIsPaired | BlobSync/BlobSyncCore.cs:147-156 | an enumerated file that shares a listed name is never in OnlyLocal and is paired in Identical or Differs |
| ClassificationFacts.PairedNamesExist | BlobSync/BlobSyncCore.cs:113-131 | every Identical and Differs entry names an existing local file |
| BlobStore.BlobContainer.DeleteIfExists | BlobSync/Uploader.cs:50-51 | removes the blob and its headers, reports whether it existed, and logs the delete |
| BlobStore.BlobContainer.GetProperties | BlobSync/Uploader.cs:105 | returns the headers recorded for the name, or headers with no fields set for a name with no recorded headers |
| BlobStore.BlobContainer.SetHttpHeaders | BlobSync/Uploader.cs:118 | replaces the blob's headers; contents and log are unchanged |
| BlobStore.BlobContainer.Upload | BlobSync/Uploader.cs:82-83 | the blob holds the file's bytes, headers are kept, and the upload is logged |
| Uploader.FlagsAreIndependentBits | BlobSync/Uploader.cs:12-18 | `Delete` is bit 1 and `Force` is bit 2; `HasFlag` tests each bit on its own, so both can be set and `Default` sets neither |
| Uploader.Extension | BlobSync/Uploader.cs:97 | the result is empty or a suffix of the name that starts with its last dot and has no dot or separator after it; it is empty only when the name ends in a dot or every dot is followed by a separator |
| Uploader.ExtensionOfSuffix | BlobSync/Uploader.cs:97 | a name ending in a dot-led segment with no further dot or separator has that segment as its extension |
| Uploader.MappedContentType | BlobSync/Uploader.cs:97-102 | a content type is found iff the exact extension is a key of the four-entry map, and it is that key's value |
| Uploader.ResolveHeaders | BlobSync/Uploader.cs:107-115 | the content type is the mapped one, else the existing one; language, cache control, disposition, encoding and hash are copied unchanged |
| Uploader.ResolveHeadersIdempotent | BlobSync/Uploader.cs:104-118 | resolving the headers a second time changes nothing |
| Uploader.DisplayContentType | BlobSync/Uploader.cs:120 | the returned display type is the mapped type, or `""` when the extension is unmapped |
| Uploader.DefaultMappings | BlobSync/Uploader.cs:22-28 | `.html`, `.css`, `.js` and `.wasm` map to their types, also in a subdirectory and after other dots |
| Uploader.UnmappedNames | BlobSync/Uploader.cs:97-102 | the lookup is case-sensitive: an unlisted extension, a listed one in another case, and a name without a dot get no content type |
| Uploader.PlanIsReadable | BlobSync/Uploader.cs:55-74 | every Differs, Identical and OnlyLocal name is a local file, so every upload of the plan can open its file |
| Uploader.ApplyProperties | BlobSync/Uploader.cs:95-121 | stores the resolved headers on the blob; contents and log are unchanged; returns the display type |
| Uploader.PushFile | BlobSync/Uploader.cs:77-93 | sets the headers, then uploads the local file's bytes, and logs one upload |
| Uploader.DeleteBlobs | BlobSync/Uploader.cs:44-53 | deletes every remote-only blob in order: the log gains exactly those deletes, and the store is their effect |
| Uploader.PushFiles | BlobSync/Uploader.cs:55-65 | uploads each file in order: the log gains exactly those uploads, and the store is their effect |
| Uploader.PlanInSegments | BlobSync/Uploader.cs:44-74 | the plan is deletes, then Differs uploads, then OnlyLocal uploads, then forced Identical uploads, and running it means running the four segments in turn |
| Uploader.Sync | BlobSync/Uploader.cs:20-75 | the container's log grows by exactly the push plan of the classification, and its new state is the plan's effect |
| PushFacts.SegmentMembership | BlobSync/Uploader.cs:44-74 | a request is in a segment iff its name is in the matching category; no segment mixes deletes and uploads |
| PushFacts.PushDeletesIff | BlobSync/Uploader.cs:44-53 | the plan deletes a blob iff the Delete bit is set and the blob is remote-only; no other category is deleted |
| PushFacts.PushUploadsIff | BlobSync/Uploader.cs:55-74 | the plan uploads a name iff it is in Differs or OnlyLocal, or, under the Force bit, in Identical |
| PushFacts.PushPlanOrder | BlobSync/Uploader.cs:44-74 | every delete comes before every upload; each category appears whole, at its own position and in its own order |
| PushFacts.PerformAllUntouched | BlobSync/Uploader.cs:44-74 | a name the plan never mentions keeps its blob and headers |
| PushFacts.PerformAllUploaded | BlobSync/Uploader.cs:55-74 | a name the plan uploads and never deletes holds the local file's bytes afterwards |
| PushFacts.PerformAllDeleted | BlobSync/Uploader.cs:44-53 | a name the plan deletes and never uploads is gone afterwards |
| PushFacts.PushOutcome | BlobSync/Uploader.cs:44-74 | after a push every uploaded blob holds the local bytes, remote-only blobs are gone under the Delete bit, and every other blob is unchanged |
| Downloader.ClassifiedNamesListed | BlobSync/Downloader.cs:34-58 | every blob the pull downloads or replaces is a listed blob, so it can be read |
| Downloader.DownloadBlobs | BlobSync/Downloader.cs:34-45 | the remote-only loop leaves the tree as `Downloads` says: each name opened for writing, with the blob's bytes written over it |
| Downloader.ReplaceFiles | BlobSync/Downloader.cs:47-58 | the Differs loop leaves the tree as `Replacements` says: each file deleted, then written with the blob's bytes |
| Downloader.DeleteLocalFiles | BlobSync/Downloader.cs:60-67 | the OnlyLocal loop leaves the tree as `Deletions` says: each file removed |
| Downloader.Sync | BlobSync/Downloader.cs:18-70 | the tree becomes `Pull` of the old tree, and the result is the verifier's verdict on the new tree over the full listing |
| PullFacts.DownloadsEffect | BlobSync/Downloader.cs:34-45 | a remote-only name ends up holding exactly the blob's bytes, even when listed twice; other files are unchanged |
| PullFacts.ReplacementsEffect | BlobSync/Downloader.cs:47-58 | a Differs name ends up holding exactly the blob's bytes, because it is deleted before the write; other files are unchanged |
| PullFacts.DeletionsEffect | BlobSync/Downloader.cs:60-67 | an OnlyLocal name is gone; other files are unchanged |
| PullFacts.CategoryNames | BlobSync/BlobSyncCore.cs:101-156 | remote-only names are listed and missing locally, Differs names are listed, and OnlyLocal names are never listed |
| PullFacts.PullOutcome | BlobSync/Downloader.cs:34-67 | after a pull every remote-only and Differs name holds the blob's bytes, OnlyLocal files are gone under the Delete bit, and every other file keeps its content |
| PullFacts.IdenticalUntouched | BlobSync/Downloader.cs:18-70 | with distinct blob names, an Identical file keeps its content |
| PullFacts.PullThenVerify | BlobSync/Downloader.cs:34-69 | when each listed digest and length are those of the blob's bytes, the verifier accepts the tree after the pull, whatever it held before |
| PullFacts.PullConverges | BlobSync/Downloader.cs:34-69 | after such a pull, a new classification finds nothing remote-only and nothing changed |
| PullFacts.PullKeepsFilesWithoutDelete | BlobSync/Downloader.cs:60-67 | without the Delete bit no local file disappears |
| PullFacts.ForceIsIgnored | BlobSync/Downloader.cs:60 | setting or clearing the Force bit does not change the pull's result |
| Scenarios.MissingFileIsRemoteOnly | BlobSync/BlobSyncCore.cs:133-139 | with nothing local, the one listed blob is the only OnlyRemote entry and every other category is empty |
| Scenarios.MissingFileIsDownloaded | BlobSync/Downloader.cs:34-45 | with nothing local, the pull downloads the remote-only blob, the tree then equals the container, and the verifier accepts |
| Scenarios.IdenticalFileIsKept | BlobSync/BlobSyncCore.cs:119-124 | the same bytes locally classify as Identical, and the pull changes nothing |
| Scenarios.ChangedFileDiffers | BlobSync/BlobSyncCore.cs:119-131 | equal length with different bytes classifies as Differs, paired with the local file's descriptor, and nothing else is recorded |
| Scenarios.SameLengthDifferentBytesIsReplaced | BlobSync/BlobSyncCore.cs:119-131 | equal length with different bytes classifies as Differs, and the pull replaces the file with the blob's bytes |
| Scenarios.LocalOnlyFileIsClassified | BlobSync/BlobSyncCore.cs:147-156 | with an empty listing, the one enumerated file is OnlyLocal and every other list is empty |
| Scenarios.LocalOnlyFileIsUploaded | BlobSync/Uploader.cs:61-65 | the push plan for that OnlyLocal file is one upload of it, and the container then holds its bytes |
| Scenarios.RemoteOnlyBlobIsDeleted | BlobSync/Uploader.cs:44-53 | a blob with no local file is deleted by the push under the Delete bit, leaving the container empty, and left alone without it |
| Scenarios.ChangedFileIsUploaded | BlobSync/Uploader.cs:55-59 | a changed file of equal length is uploaded once by a push without Force |

## Left out

- Client construction for the blob service and the choice between a connection string and a URL are foreign calls. The container is a `BlobContainer` value the caller passes.
- `ListBlobsAsync` is a pass-through over the SDK's paging. The listing is a plain sequence parameter.
- `DownloadBlobText` and `UploadBlobText` are stream wrappers that the sync never calls.
- The MD5 and base64 internals are one injective `Fingerprint`. Real digests can collide, and the model does not capture that risk.
- OS path semantics are not modelled. The local tree is a map keyed by slash-normalized names, and the enumeration is the recursive path list. A non-recursive run keeps the entries with no separator.
- `Path.Combine`, `Path.GetRelativePath`, `Path.GetDirectoryName` and `Directory.CreateDirectory` are not modelled. A file's descriptor carries its normalized name, not the `GetRelativePath` result. On Windows that result keeps backslashes.
- `Uploader.Extension`: both `/` and `\` count as separators, as `Path.GetExtension` does on Windows. On other hosts `\` is an ordinary character.
- The SDK's default for overwriting on `UploadAsync` is not modelled. `BlobStore.BlobContainer.Upload` always replaces the blob.
- `GetPropertiesAsync` on a blob that does not exist yet is modelled as returning headers with no fields set. Headers are keyed by name apart from contents, so headers set before a blob's first upload are reported for it.
- Whether an upload resets headers that were set before it is not modelled. `BlobStore.BlobContainer.Upload` keeps them.
- BlobSyncCore.Verify and BlobSyncCore.Classify assume that every listed blob carries a content hash: `RemoteItem.contentHash` is a `Digest`, not optional. In the store a blob can be listed without a stored Content-MD5. `Convert.ToBase64String` then throws on the null hash. It throws in `GetSyncInfoAsync` when the local file exists (BlobSync/BlobSyncCore.cs:119) and in `Verify` (BlobSync/BlobSyncCore.cs:67). Under `verbose` it throws at lines 58 and 109 too. Either way the pass aborts, while the model always reaches a verdict.
- I/O failures and the exceptions they raise are not modelled. Neither are the abort-on-first-failure behaviour they cause or a missing root directory.
- Async/await, everything written to the console and the `verbose` output are left out. `verbose` is an ignored parameter.
- `LastModified` timestamps are left out; nothing compares them.
- `GetFileData` fills a mutable `FileData` object field by field. It is modelled as a function returning the finished `FileData` value.
- The blob contents a pull reads are the container's map at that moment. A concurrent change to the container during the pull is not modelled.
- `PullFacts.IdenticalUntouched` is proved only for listings with distinct blob names, as a container listing has. With a repeated name and different digests, a file can be both Identical and Differs and is then replaced.
- `PullFacts.PullThenVerify` needs the listing to be current: each item must carry the digest and length of the blob's bytes.
