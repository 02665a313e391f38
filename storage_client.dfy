/** The storage client as the request builders see it: it names the storage account. */
module StorageClient {

  datatype Client = Client(account: string)

  /** `https://{account}.blob.core.windows.net/`, the root every blob-service URI starts with. */
  function BlobServiceRoot(account: string): (root: string)
    ensures '?' !in account ==> '?' !in root
  {
    "https://" + account + ".blob.core.windows.net/"
  }
}
