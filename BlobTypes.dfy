/** The values the reconciliation engine works with: remote listing entries,
    local file descriptors, blob references and HTTP delivery headers. */
module BlobTypes {
  import opened Wrappers

  type Bytes = seq<bv8>

  /** The base64 text of an MD5 digest. The digest is kept symbolic: a
      `Digest` records the bytes it was computed from, which makes the
      fingerprint injective — equal digests mean equal content. */
  datatype Digest = Md5Base64(source: Bytes)

  /** `Convert.ToBase64String(MD5.ComputeHash(stream))` over a whole file. */
  function Fingerprint(content: Bytes): (d: Digest)
  {
    Md5Base64(content)
  }

  lemma FingerprintInjective(a: Bytes, b: Bytes)
    ensures Fingerprint(a) == Fingerprint(b) <==> a == b
  {
  }

  /** One entry of the container listing (a `BlobItem`): its name and the
      `ContentHash` and `ContentLength` the store publishes for it. */
  datatype RemoteItem = RemoteItem(name: string, contentHash: Digest, length: nat)

  /** A `BlobClient`: a handle on the blob of the given name. */
  datatype BlobRef = BlobRef(name: string)

  /** The descriptor `GetFileData` fills in for a local file. */
  datatype FileData = FileData(name: string, length: nat, md5: Digest)

  /** The HTTP delivery headers of a blob; `None` is a C# null. */
  datatype Headers = Headers(
    contentType: Option<string>,
    contentLanguage: Option<string>,
    cacheControl: Option<string>,
    contentDisposition: Option<string>,
    contentEncoding: Option<string>,
    contentHash: Option<Digest>)

  const NoHeaders := Headers(None, None, None, None, None, None)
}
