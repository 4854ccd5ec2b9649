/** The object store (a MinIO bucket) as the pipeline calls it. */
module Storage {
  import opened Js

  /** `listFiles(prefix)`: the object keys under a prefix, in listing order;
      `getFile(key)`: the object's bytes. Either call can fail with a message. */
  datatype ObjectStore = ObjectStore(
    listFiles: string -> Result<seq<string>>,
    getFile: string -> Result<Bytes>)

  /** A store whose listings only ever return keys under the prefix asked for. */
  ghost predicate ListsUnderPrefix(store: ObjectStore) {
    forall prefix: string, key: string | store.listFiles(prefix).Ok? && key in store.listFiles(prefix).value ::
      StartsWith(key, prefix)
  }
}
