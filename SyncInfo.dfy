/** The classification record that one reconciliation pass builds and the
    push and pull drivers consume. */
module SyncInfo {
  import opened BlobTypes

  /** A snapshot of the record's five lists. */
  datatype Classification = Classification(
    onlyRemote: seq<BlobRef>,
    differs: seq<(BlobRef, FileData)>,
    identical: seq<(BlobRef, FileData)>,
    onlyLocal: seq<FileData>,
    allRemote: seq<RemoteItem>)

  const Empty := Classification([], [], [], [], [])

  /** Some entry of `pairs` is for the blob called `name`. */
  predicate IsPairName(pairs: seq<(BlobRef, FileData)>, name: string)
  {
    exists k :: 0 <= k < |pairs| && pairs[k].0.name == name
  }

  /** Some descriptor of `locals` is for the file called `name`. */
  predicate IsFileName(locals: seq<FileData>, name: string)
  {
    exists k :: 0 <= k < |locals| && locals[k].name == name
  }

  /** The record: four append-only category lists plus the full remote
      listing, which the verifier walks again after a pull. */
  class BlobSyncInfo {
    var onlyRemote: seq<BlobRef>
    var differs: seq<(BlobRef, FileData)>
    var identical: seq<(BlobRef, FileData)>
    var onlyLocal: seq<FileData>
    var allRemoteItems: seq<RemoteItem>

    function Value(): (c: Classification)
      reads this
    {
      Classification(onlyRemote, differs, identical, onlyLocal, allRemoteItems)
    }

    constructor ()
      ensures Value() == Empty
    {
      onlyRemote, differs, identical, onlyLocal, allRemoteItems := [], [], [], [], [];
    }

    method AddOnlyRemote(blob: BlobRef)
      modifies this
      ensures Value() == old(Value()).(onlyRemote := old(onlyRemote) + [blob])
    {
      onlyRemote := onlyRemote + [blob];
    }

    method AddDiffers(blob: BlobRef, file: FileData)
      modifies this
      ensures Value() == old(Value()).(differs := old(differs) + [(blob, file)])
    {
      differs := differs + [(blob, file)];
    }

    method AddIdentical(blob: BlobRef, file: FileData)
      modifies this
      ensures Value() == old(Value()).(identical := old(identical) + [(blob, file)])
    {
      identical := identical + [(blob, file)];
    }

    method AddOnlyLocal(file: FileData)
      modifies this
      ensures Value() == old(Value()).(onlyLocal := old(onlyLocal) + [file])
    {
      onlyLocal := onlyLocal + [file];
    }

    method AddRemoteItem(item: RemoteItem)
      modifies this
      ensures Value() == old(Value()).(allRemote := old(allRemoteItems) + [item])
    {
      allRemoteItems := allRemoteItems + [item];
    }
  }
}
