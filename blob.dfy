/**
 * Blob resource URIs: `https://{account}.blob.core.windows.net/{container}/{blob}` with both
 * names percent-encoded, followed by `?` and the query parameters when there are any.
 */
module Blob {
  import opened Wrappers
  import opened Text
  import opened StorageClient
  import PercentEncoding

  /** `generate_blob_uri`. */
  function BlobUri(account: string, containerName: string, blobName: string, params: Option<string>): string {
    var path := BlobServiceRoot(account) + PercentEncoding.Encode(containerName) + "/" + PercentEncoding.Encode(blobName);
    match params
    case Some(p) => path + "?" + p
    case None => path
  }

  /**
   * A server recovers the query exactly, and the path splits into the encoded container name
   * and the encoded blob name, whatever characters the two names hold.
   */
  lemma BlobUriParts(account: string, containerName: string, blobName: string, params: Option<string>)
    requires '?' !in account
    ensures var encodedContainer := PercentEncoding.Encode(containerName);
            var encodedBlob := PercentEncoding.Encode(blobName);
            && SplitQuery(BlobUri(account, containerName, blobName, params))
               == (BlobServiceRoot(account) + encodedContainer + "/" + encodedBlob, params)
            && SplitOn(encodedContainer + "/" + encodedBlob, '/') == [encodedContainer, encodedBlob]
  {
    var encodedContainer := PercentEncoding.Encode(containerName);
    var encodedBlob := PercentEncoding.Encode(blobName);
    PercentEncoding.EncodeAvoidsSet(containerName, '?');
    PercentEncoding.EncodeAvoidsSet(blobName, '?');
    PercentEncoding.EncodeAvoidsSet(containerName, '/');
    PercentEncoding.EncodeAvoidsSet(blobName, '/');
    var root := BlobServiceRoot(account);
    var path := root + encodedContainer + "/" + encodedBlob;
    assert '?' !in path by {
      assert '?' !in root && '?' !in encodedContainer && '?' !in encodedBlob;
      assert '?' !in "/";
    }
    if params.Some? {
      SplitQueryAt(path, params.value);
      assert BlobUri(account, containerName, blobName, params) == path + "?" + params.value;
    } else {
      SplitQueryNone(path);
      assert BlobUri(account, containerName, blobName, params) == path;
    }
    SplitOnAt(encodedContainer, '/', encodedBlob);
    SplitOnNoSep(encodedBlob, '/');
    assert encodedContainer + "/" + encodedBlob == encodedContainer + ['/'] + encodedBlob;
  }
}
