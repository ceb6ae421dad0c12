/** The blob container the push driver writes to: blob contents, their
    HTTP headers, and the log of deletes and uploads issued against it. */
module BlobStore {
  import opened BlobTypes

  /** A state-changing request the push driver sends to the container. */
  datatype Request = DeleteRequest(name: string) | UploadRequest(name: string)

  datatype StoreState = StoreState(contents: map<string, Bytes>, headers: map<string, Headers>)

  /** The properties `GetPropertiesAsync` reports for a blob; a blob with
      none recorded reports every header as null. */
  function PropertiesOf(headers: map<string, Headers>, name: string): (h: Headers)
  {
    if name in headers then headers[name] else NoHeaders
  }

  class BlobContainer {
    var contents: map<string, Bytes>
    var headers: map<string, Headers>
    var log: seq<Request>

    function State(): (s: StoreState)
      reads this
    {
      StoreState(contents, headers)
    }

    constructor (contents: map<string, Bytes>, headers: map<string, Headers>)
      ensures State() == StoreState(contents, headers) && log == []
    {
      this.contents, this.headers, log := contents, headers, [];
    }

    /** `DeleteIfExistsAsync`: reports whether the blob was there. */
    method DeleteIfExists(name: string) returns (existed: bool)
      modifies this
      ensures existed == (name in old(contents))
      ensures contents == old(contents) - {name} && headers == old(headers) - {name}
      ensures log == old(log) + [DeleteRequest(name)]
    {
      existed := name in contents;
      contents, headers := contents - {name}, headers - {name};
      log := log + [DeleteRequest(name)];
    }

    method GetProperties(name: string) returns (properties: Headers)
      ensures properties == PropertiesOf(headers, name)
    {
      properties := if name in headers then headers[name] else NoHeaders;
    }

    /** `SetHttpHeadersAsync`. */
    method SetHttpHeaders(name: string, h: Headers)
      modifies this
      ensures headers == old(headers)[name := h]
      ensures contents == old(contents) && log == old(log)
    {
      headers := headers[name := h];
    }

    /** `UploadAsync`: the blob's content becomes `data`. */
    method Upload(name: string, data: Bytes)
      modifies this
      ensures contents == old(contents)[name := data]
      ensures headers == old(headers)
      ensures log == old(log) + [UploadRequest(name)]
    {
      contents := contents[name := data];
      log := log + [UploadRequest(name)];
    }
  }
}
