/** The sync-decision engine: for every regular file of a walk it fingerprints
    the content, probes the bucket for an object keyed by the file's relative
    path, and uploads the file when the object is missing or its recorded
    fingerprint differs, unless the run is a dry run. */
module Syncer {
  import opened Wrappers
  import opened ObjectStore

  type Bytes = seq<bv8>

  /** A content fingerprint (the hex md5 digest in the source). */
  type Digest = string

  /** Metadata key under which an upload records the file's fingerprint. */
  const MD5SUM_KEY: string := "md5sum"

  /** One path yielded by the directory walk, relative to the target directory.
      Only regular files carry content; directories and anything else that is
      not a regular file are `Other`. */
  datatype Entry = RegularFile(path: string, content: Bytes) | Other(path: string)

  /** Relationship of a local file to its remote counterpart. */
  datatype SyncState = NotUploaded | Synced | NotSynced

  /** A client call issued by the engine, in the order it is issued. */
  datatype Call =
    | GetMetadata(key: string)
    | Put(key: string, filePath: string, metadata: Metadata)

  datatype SyncError =
    | MissingBucketName          // raised before any work starts
    | ClientFailure(code: string) // a store error other than not-found, re-raised
    | UploadFailed(code: string)  // the transfer layer gave up on an upload

  /** Everything one sync run does: the bucket it leaves behind, the client
      calls it issued, and whether it completed or raised. On an error the
      bucket keeps the uploads made before the error. */
  datatype SyncRun = SyncRun(bucket: Bucket, calls: seq<Call>, status: Outcome<SyncError>)

  /** The store client, bound to one bucket. */
  datatype S3Client = S3Client(bucketName: string)

  /** The syncer's configuration: the bucket name it checks and the client it
      talks through. */
  datatype SyncerState = SyncerState(bucketName: string, client: S3Client)

  /** Outcome of the existence probe, tagged so that not-found cannot be
      mistaken for another failure. */
  datatype Probe = Found(metadata: Metadata) | NotFound | Failed(code: string)

  /** The metadata every upload attaches: exactly the fingerprint. */
  function UploadMetadata(d: Digest): (md: Metadata)
    ensures md.Keys == {MD5SUM_KEY} && md[MD5SUM_KEY] == d
  {
    map[MD5SUM_KEY := d]
  }

  /** The client is bound to the bucket the syncer is configured for. */
  predicate ClientBound(s: SyncerState)
  {
    s.client.bucketName == s.bucketName
  }

  /** A freshly constructed syncer, bound to the configured default bucket. */
  function NewSyncer(defaultBucketName: string): (s: SyncerState)
    ensures s.bucketName == defaultBucketName && ClientBound(s)
  {
    SyncerState(defaultBucketName, S3Client(defaultBucketName))
  }

  /** Changes the target bucket and rebuilds the client for it, so that no
      later call goes through a client bound to the previous bucket. */
  function SetBucketName(s: SyncerState, name: string): (s': SyncerState)
    ensures s'.bucketName == name && s'.client.bucketName == name
    ensures ClientBound(s')
  {
    var named := s.(bucketName := name);
    named.(client := S3Client(named.bucketName))
  }

  /** Does an object exist under `key`? A successful metadata fetch means yes,
      the not-found code means no, and every other error is re-raised. */
  function IsObjectExists(b: Bucket, key: string): (r: Result<bool, string>)
    ensures r == Success(true) <==> key !in b.faults && key in b.objects
    ensures r == Success(false) <==>
      (key !in b.faults && key !in b.objects) || (key in b.faults && b.faults[key] == NOT_FOUND)
    ensures r.Failure? <==> key in b.faults && b.faults[key] != NOT_FOUND
    ensures r.Failure? ==> r.error == b.faults[key]
  {
    match GetObjectMetadata(b, key)
    case HeadOk(_) => Success(true)
    case ClientError(code) => if code == NOT_FOUND then Success(false) else Failure(code)
  }

  /** The existence probe with its three outcomes kept apart. */
  function ProbeObject(b: Bucket, key: string): (p: Probe)
    ensures p.Found? <==> IsObjectExists(b, key) == Success(true)
    ensures p.NotFound? <==> IsObjectExists(b, key) == Success(false)
    ensures p.Failed? <==> IsObjectExists(b, key).Failure?
    ensures p.Found? ==> key in b.objects && p.metadata == b.objects[key]
    ensures p.Failed? ==> p.code != NOT_FOUND && p.code == b.faults[key]
  {
    match GetObjectMetadata(b, key)
    case HeadOk(md) => Found(md)
    case ClientError(code) => if code == NOT_FOUND then NotFound else Failed(code)
  }

  /** Classifies a local file with fingerprint `d` against the object stored
      under `key`: missing objects are not uploaded, objects whose recorded
      fingerprint equals `d` exactly are synced, all other present objects are
      not synced; a store error other than not-found is passed on. */
  function Classify(b: Bucket, key: string, d: Digest): (r: Result<SyncState, string>)
    ensures r.Failure? <==> key in b.faults && b.faults[key] != NOT_FOUND
    ensures r.Failure? ==> r.error == b.faults[key]
    ensures r == Success(NotUploaded) <==>
      (key !in b.faults && key !in b.objects) || (key in b.faults && b.faults[key] == NOT_FOUND)
    ensures r == Success(Synced) <==>
      key !in b.faults && key in b.objects
      && MD5SUM_KEY in b.objects[key] && b.objects[key][MD5SUM_KEY] == d
    ensures r == Success(NotSynced) <==>
      key !in b.faults && key in b.objects
      && (MD5SUM_KEY !in b.objects[key] || b.objects[key][MD5SUM_KEY] != d)
  {
    match ProbeObject(b, key)
    case Failed(code) => Failure(code)
    case NotFound => Success(NotUploaded)
    case Found(md) => if Get(md, MD5SUM_KEY) == Some(d) then Success(Synced) else Success(NotSynced)
  }

  /** Uploads `file` under its own path with the fingerprint as metadata; a dry
      run issues no call and leaves the bucket as it is. */
  function UploadFile(b: Bucket, file: string, md5sum: Digest, dryRun: bool): (r: (Bucket, seq<Call>))
    ensures dryRun ==> r.0 == b && r.1 == []
    ensures !dryRun ==> r.1 == [Put(file, file, UploadMetadata(md5sum))]
    ensures !dryRun ==>
      file in r.0.objects && r.0.objects[file].Keys == {MD5SUM_KEY}
      && r.0.objects[file][MD5SUM_KEY] == md5sum
    ensures forall k :: k != file ==> (k in r.0.objects <==> k in b.objects)
    ensures forall k :: k in b.objects && k != file ==> r.0.objects[k] == b.objects[k]
    ensures r.0.faults == b.faults
  {
    if dryRun then (b, [])
    else (PutObject(b, file, UploadMetadata(md5sum)), [Put(file, file, UploadMetadata(md5sum))])
  }

  /** The step `r` taken for a file stored under `key` with fingerprint `d`
      is the one its classification calls for: a store error stops after the
      existence probe without changing anything; a missing object is uploaded
      after the probe; a present object's metadata is fetched again and the
      file uploaded when not synced and left alone when synced. */
  predicate FollowsClassification(b: Bucket, key: string, d: Digest, dryRun: bool, r: SyncRun)
  {
    var upload := UploadFile(b, key, d, dryRun);
    match Classify(b, key, d)
    case Failure(code) => r == SyncRun(b, [GetMetadata(key)], Fail(ClientFailure(code)))
    case Success(NotUploaded) => r == SyncRun(upload.0, [GetMetadata(key)] + upload.1, Pass)
    case Success(NotSynced) => r == SyncRun(upload.0, [GetMetadata(key), GetMetadata(key)] + upload.1, Pass)
    case Success(Synced) => r == SyncRun(b, [GetMetadata(key), GetMetadata(key)], Pass)
  }

  /** One iteration of the sync loop, over one walk entry. Entries that are not
      regular files are passed over. For a file, the existence probe is one
      metadata fetch; when the object exists its metadata is fetched a second
      time and its recorded fingerprint compared with the local one. */
  function SyncEntry(b: Bucket, e: Entry, fingerprint: Bytes -> Digest, dryRun: bool): (r: SyncRun)
    ensures e.Other? ==> r == SyncRun(b, [], Pass)
    ensures r.bucket.faults == b.faults
    ensures e.RegularFile? ==> FollowsClassification(b, e.path, fingerprint(e.content), dryRun, r)
  {
    match e
    case Other(_) => SyncRun(b, [], Pass)
    case RegularFile(file, content) =>
      var md5sumLocal := fingerprint(content);
      match IsObjectExists(b, file)
      case Failure(code) => SyncRun(b, [GetMetadata(file)], Fail(ClientFailure(code)))
      case Success(false) =>
        var (b', puts) := UploadFile(b, file, md5sumLocal, dryRun);
        SyncRun(b', [GetMetadata(file)] + puts, Pass)
      case Success(true) =>
        var probes := [GetMetadata(file), GetMetadata(file)];
        match GetObjectMetadata(b, file)
        case ClientError(code) => SyncRun(b, probes, Fail(ClientFailure(code)))
        case HeadOk(metadataRemote) =>
          if Get(metadataRemote, MD5SUM_KEY) != Some(md5sumLocal) then
            var (b', puts) := UploadFile(b, file, md5sumLocal, dryRun);
            SyncRun(b', probes + puts, Pass)
          else
            SyncRun(b, probes, Pass)
  }

  /** The loop body of a sync run, for a fixed fingerprint and dry-run flag. */
  function EntryStep(fingerprint: Bytes -> Digest, dryRun: bool): (step: (Bucket, Entry) -> SyncRun)
  {
    (b: Bucket, e: Entry) => SyncEntry(b, e, fingerprint, dryRun)
  }

  /** Runs `step` over the walk in walk order, each step on the bucket the
      previous one left; the first step that raises stops the loop, and its
      error is the loop's. */
  function RunLoop(step: (Bucket, Entry) -> SyncRun, b: Bucket, walk: seq<Entry>): (r: SyncRun)
    decreases |walk|
  {
    if |walk| == 0 then SyncRun(b, [], Pass)
    else
      var first := step(b, walk[0]);
      if first.status.Fail? then first
      else
        var rest := RunLoop(step, first.bucket, walk[1..]);
        SyncRun(rest.bucket, first.calls + rest.calls, rest.status)
  }

  /** Each step of a sync loop keeps the bucket's faults, and raises only
      store errors; so does the whole loop. */
  lemma {:induction false} SyncLoopKeepsFaults(b: Bucket, walk: seq<Entry>, fingerprint: Bytes -> Digest, dryRun: bool)
    ensures RunLoop(EntryStep(fingerprint, dryRun), b, walk).bucket.faults == b.faults
    ensures RunLoop(EntryStep(fingerprint, dryRun), b, walk).status.Fail? ==>
      RunLoop(EntryStep(fingerprint, dryRun), b, walk).status.error.ClientFailure?
    decreases |walk|
  {
    if |walk| > 0 {
      SyncLoopKeepsFaults(SyncEntry(b, walk[0], fingerprint, dryRun).bucket, walk[1..], fingerprint, dryRun);
    }
  }

  /** The sync loop over the walk, in walk order; the first error stops it,
      and only a store error can. */
  function SyncFiles(b: Bucket, walk: seq<Entry>, fingerprint: Bytes -> Digest, dryRun: bool): (r: SyncRun)
    ensures r.bucket.faults == b.faults
    ensures r.status.Fail? ==> r.status.error.ClientFailure?
  {
    SyncLoopKeepsFaults(b, walk, fingerprint, dryRun);
    RunLoop(EntryStep(fingerprint, dryRun), b, walk)
  }

  /** A sync run: an empty bucket name is refused before any store call is
      made; otherwise the loop runs over the walk of the target directory. */
  function Sync(s: SyncerState, b: Bucket, walk: seq<Entry>, fingerprint: Bytes -> Digest, dryRun: bool): (r: SyncRun)
    ensures r.status == Fail(MissingBucketName) <==> s.bucketName == []
    ensures s.bucketName == [] ==> r.bucket == b && r.calls == []
  {
    if s.bucketName == [] then SyncRun(b, [], Fail(MissingBucketName))
    else SyncFiles(b, walk, fingerprint, dryRun)
  }

  /** What a scan reports for one regular file. */
  datatype Report = Report(path: string, state: SyncState)

  /** Number of regular files among the entries. */
  function CountRegular(entries: seq<Entry>): (n: nat)
  {
    if |entries| == 0 then 0
    else (if entries[0].RegularFile? then 1 else 0) + CountRegular(entries[1..])
  }

  /** The regular files of a walk, in walk order. */
  function RegularFiles(walk: seq<Entry>): (fs: seq<Entry>)
    ensures |fs| <= |walk|
    ensures forall i :: 0 <= i < |fs| ==> fs[i].RegularFile? && fs[i] in walk
    ensures forall e :: e in walk && e.RegularFile? ==> e in fs
  {
    if |walk| == 0 then []
    else if walk[0].RegularFile? then [walk[0]] + RegularFiles(walk[1..])
    else RegularFiles(walk[1..])
  }

  /** `RegularFiles` holds exactly as many entries as the walk has regular
      files. */
  lemma {:induction false} RegularFilesCount(walk: seq<Entry>)
    ensures |RegularFiles(walk)| == CountRegular(walk)
    decreases |walk|
  {
    if |walk| > 0 {
      RegularFilesCount(walk[1..]);
    }
  }

  /** Each regular file of the walk appears in `RegularFiles` exactly once,
      in walk order: the file at walk index `i` sits at the position given by
      the number of regular files before it. Together with
      `RegularFilesCount`, no position is left for anything else. */
  lemma {:induction false} RegularFilesInWalkOrder(walk: seq<Entry>, i: nat)
    requires i < |walk| && walk[i].RegularFile?
    ensures CountRegular(walk[..i]) < |RegularFiles(walk)|
    ensures RegularFiles(walk)[CountRegular(walk[..i])] == walk[i]
    decreases i
  {
    if i > 0 {
      assert walk[..i][0] == walk[0];
      assert walk[..i][1..] == walk[1..][..i - 1];
      RegularFilesInWalkOrder(walk[1..], i - 1);
    }
  }

  /** The classification of a regular file of the walk. */
  function ClassifyEntry(b: Bucket, e: Entry, fingerprint: Bytes -> Digest): (r: Result<SyncState, string>)
    requires e.RegularFile?
  {
    Classify(b, e.path, fingerprint(e.content))
  }

  /** The entry at index `i` is the first regular file of the walk whose
      classification meets a store error. */
  predicate FirstScanError(b: Bucket, walk: seq<Entry>, fingerprint: Bytes -> Digest, i: nat)
  {
    && i < |walk| && walk[i].RegularFile? && ClassifyEntry(b, walk[i], fingerprint).Failure?
    && forall j :: 0 <= j < i && walk[j].RegularFile? ==> ClassifyEntry(b, walk[j], fingerprint).Success?
  }

  /** A first error found after a leading entry that classifies without
      error is the first error of the whole walk, one index later. */
  lemma FirstScanErrorShift(b: Bucket, walk: seq<Entry>, fingerprint: Bytes -> Digest)
    requires |walk| > 0
    requires walk[0].RegularFile? ==> ClassifyEntry(b, walk[0], fingerprint).Success?
    ensures forall i: nat :: FirstScanError(b, walk[1..], fingerprint, i) ==> FirstScanError(b, walk, fingerprint, i + 1)
  {
    forall i: nat | FirstScanError(b, walk[1..], fingerprint, i)
      ensures FirstScanError(b, walk, fingerprint, i + 1)
    {
      forall j | 0 <= j < i + 1 && walk[j].RegularFile?
        ensures ClassifyEntry(b, walk[j], fingerprint).Success?
      {
        if j > 0 {
          assert walk[j] == walk[1..][j - 1];
        }
      }
    }
  }

  /** Classifies every regular file of the walk, in walk order, without
      uploading anything; the first store error other than not-found is
      passed on. */
  function Scan(b: Bucket, walk: seq<Entry>, fingerprint: Bytes -> Digest): (r: Result<seq<Report>, string>)
    ensures r.Success? ==>
      var fs := RegularFiles(walk);
      |r.value| == |fs|
      && forall i :: 0 <= i < |fs| ==>
           r.value[i].path == fs[i].path
           && Classify(b, fs[i].path, fingerprint(fs[i].content)) == Success(r.value[i].state)
    ensures r.Failure? <==>
      exists e :: e in walk && e.RegularFile? && Classify(b, e.path, fingerprint(e.content)).Failure?
    ensures r.Failure? ==>
      exists e :: e in walk && e.RegularFile? && Classify(b, e.path, fingerprint(e.content)) == Failure(r.error)
    decreases |walk|
  {
    if |walk| == 0 then Success([])
    else
      var e := walk[0];
      var rest := Scan(b, walk[1..], fingerprint);
      match e
      case Other(_) => rest
      case RegularFile(path, content) =>
        match Classify(b, path, fingerprint(content))
        case Failure(code) => Failure(code)
        case Success(state) =>
          match rest
          case Failure(code) => Failure(code)
          case Success(reports) => Success([Report(path, state)] + reports)
  }

  /** A failing scan raises the error of the first regular file, in walk
      order, whose classification meets a store error. */
  lemma {:induction false} ScanStopsAtFirstError(b: Bucket, walk: seq<Entry>, fingerprint: Bytes -> Digest)
    requires Scan(b, walk, fingerprint).Failure?
    ensures exists i: nat ::
      FirstScanError(b, walk, fingerprint, i) && Scan(b, walk, fingerprint).error == ClassifyEntry(b, walk[i], fingerprint).error
    decreases |walk|
  {
    var e := walk[0];
    if e.RegularFile? && ClassifyEntry(b, e, fingerprint).Failure? {
      assert FirstScanError(b, walk, fingerprint, 0);
    } else {
      ScanStopsAtFirstError(b, walk[1..], fingerprint);
      FirstScanErrorShift(b, walk, fingerprint);
      var i: nat :| FirstScanError(b, walk[1..], fingerprint, i)
        && Scan(b, walk[1..], fingerprint).error == ClassifyEntry(b, walk[1..][i], fingerprint).error;
      assert walk[1..][i] == walk[i + 1];
      assert FirstScanError(b, walk, fingerprint, i + 1);
    }
  }
}
