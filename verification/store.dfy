/** The remote object store as the sync engine sees it: one bucket, holding
    objects keyed by their relative path, each carrying a flat string-to-string
    metadata map. Object bodies are not modelled; only the metadata takes part
    in sync decisions. */
module ObjectStore {

  /** User metadata attached to a stored object. */
  type Metadata = map<string, string>

  /** Error code the store answers with when an object does not exist. */
  const NOT_FOUND: string := "404"

  /** The contents of the bucket the client is bound to. `faults` lists the keys
      for which the service answers a metadata request with an error code
      instead (permission denied, throttling, ...); it stands for the network
      and the service's access rules, which the engine cannot see. */
  datatype Bucket = Bucket(objects: map<string, Metadata>, faults: map<string, string>)

  /** Answer to a metadata request: the metadata, or a client error carrying
      the service's error code. */
  datatype MetadataResponse = HeadOk(metadata: Metadata) | ClientError(code: string)

  /** Fetches the metadata of the object stored under `key`. A faulted key
      answers its fault code; otherwise a stored object answers its metadata
      and a missing one the not-found code. */
  function GetObjectMetadata(b: Bucket, key: string): (r: MetadataResponse)
    ensures r.HeadOk? <==> key !in b.faults && key in b.objects
    ensures r.HeadOk? ==> r.metadata == b.objects[key]
    ensures r.ClientError? && key in b.faults ==> r.code == b.faults[key]
    ensures r.ClientError? && key !in b.faults ==> r.code == NOT_FOUND && key !in b.objects
  {
    if key in b.faults then ClientError(b.faults[key])
    else if key in b.objects then HeadOk(b.objects[key])
    else ClientError(NOT_FOUND)
  }

  /** Uploads an object under `key` with the given metadata, replacing any
      object and metadata already stored there. */
  function PutObject(b: Bucket, key: string, metadata: Metadata): (b': Bucket)
    ensures key in b'.objects && b'.objects[key] == metadata
    ensures b'.objects.Keys == b.objects.Keys + {key}
    ensures forall k :: k in b.objects && k != key ==> b'.objects[k] == b.objects[k]
    ensures b'.faults == b.faults
  {
    b.(objects := b.objects[key := metadata])
  }
}
