/** The store service as a whole: named buckets, of which a sync run reaches
    only the one its client is bound to. */
module Cloud {
  import opened Wrappers
  import opened ObjectStore
  import opened Syncer

  /** The error code the service answers an upload into a bucket that does
      not exist with. */
  const NO_SUCH_BUCKET: string := "NoSuchBucket"

  /** Every bucket the service holds, by name. */
  type Buckets = map<string, Bucket>

  /** A sync run against the whole service: the buckets afterwards, the calls
      issued through the client, and the completion status. */
  datatype CloudRun = CloudRun(buckets: Buckets, calls: seq<Call>, status: Outcome<SyncError>)

  /** The loop step when the client's bucket does not exist: the metadata
      fetch answers not-found, so every regular file is sent to upload, and
      a real upload is refused: the transfer layer gives up on it with the
      service's `NoSuchBucket` code. */
  function AbsentBucketStep(fingerprint: Bytes -> Digest, dryRun: bool): (step: (Bucket, Entry) -> SyncRun)
  {
    (b: Bucket, e: Entry) =>
      if e.Other? then SyncRun(b, [], Pass)
      else if dryRun then SyncRun(b, [GetMetadata(e.path)], Pass)
      else SyncRun(b, [GetMetadata(e.path), Put(e.path, e.path, UploadMetadata(fingerprint(e.content)))],
                   Fail(UploadFailed(NO_SUCH_BUCKET)))
  }

  /** The step against a missing bucket issues the calls `SyncEntry` issues
      against an empty bucket. A dry run is that step exactly; a real run
      differs only in that the upload is refused, so nothing is stored and
      the run stops. */
  lemma AbsentBucketStepMatchesEntry(e: Entry, fingerprint: Bytes -> Digest, dryRun: bool)
    ensures AbsentBucketStep(fingerprint, dryRun)(Bucket(map[], map[]), e).calls
      == SyncEntry(Bucket(map[], map[]), e, fingerprint, dryRun).calls
    ensures dryRun || e.Other? ==>
      AbsentBucketStep(fingerprint, dryRun)(Bucket(map[], map[]), e) == SyncEntry(Bucket(map[], map[]), e, fingerprint, dryRun)
    ensures !dryRun && e.RegularFile? ==>
      && SyncEntry(Bucket(map[], map[]), e, fingerprint, dryRun).status.Pass?
      && AbsentBucketStep(fingerprint, dryRun)(Bucket(map[], map[]), e).bucket == Bucket(map[], map[])
      && AbsentBucketStep(fingerprint, dryRun)(Bucket(map[], map[]), e).status == Fail(UploadFailed(NO_SUCH_BUCKET))
  {
  }

  /** The calls a real run against a missing bucket issues: the probe and
      the refused upload of the walk's first regular file, if it has one. */
  function FirstUploadAttempt(walk: seq<Entry>, fingerprint: Bytes -> Digest): (calls: seq<Call>)
  {
    var fs := RegularFiles(walk);
    if |fs| == 0 then []
    else [GetMetadata(fs[0].path), Put(fs[0].path, fs[0].path, UploadMetadata(fingerprint(fs[0].content)))]
  }

  /** A loop against a missing bucket changes nothing, and it completes
      exactly when it is a dry run or the walk holds no regular file. A real
      run stops at the first regular file, after its probe and refused
      upload. */
  lemma {:induction false} AbsentBucketLoop(b: Bucket, walk: seq<Entry>, fingerprint: Bytes -> Digest, dryRun: bool)
    ensures RunLoop(AbsentBucketStep(fingerprint, dryRun), b, walk).bucket == b
    ensures RunLoop(AbsentBucketStep(fingerprint, dryRun), b, walk).status.Pass? <==>
      dryRun || CountRegular(walk) == 0
    ensures RunLoop(AbsentBucketStep(fingerprint, dryRun), b, walk).status.Fail? ==>
      RunLoop(AbsentBucketStep(fingerprint, dryRun), b, walk).status.error == UploadFailed(NO_SUCH_BUCKET)
    ensures !dryRun ==> RunLoop(AbsentBucketStep(fingerprint, dryRun), b, walk).calls == FirstUploadAttempt(walk, fingerprint)
    decreases |walk|
  {
    if |walk| > 0 {
      AbsentBucketLoop(b, walk[1..], fingerprint, dryRun);
    }
  }

  /** A dry run against a missing bucket is, call for call, a dry sync of an
      empty bucket: the probe answers not-found in both. */
  lemma {:induction false} AbsentDryLoopIsEmptySync(walk: seq<Entry>, fingerprint: Bytes -> Digest)
    ensures RunLoop(AbsentBucketStep(fingerprint, true), Bucket(map[], map[]), walk)
      == SyncFiles(Bucket(map[], map[]), walk, fingerprint, true)
    decreases |walk|
  {
    if |walk| > 0 {
      AbsentBucketStepMatchesEntry(walk[0], fingerprint, true);
      AbsentDryLoopIsEmptySync(walk[1..], fingerprint);
    }
  }

  /** A sync run against the service. The empty-name check reads the
      syncer's own bucket name, but every call goes through the client, so
      the run reads and writes only the bucket the client is bound to. */
  function SyncCloud(s: SyncerState, cloud: Buckets, walk: seq<Entry>, fingerprint: Bytes -> Digest, dryRun: bool): (r: CloudRun)
    ensures r.status == Fail(MissingBucketName) <==> s.bucketName == []
    ensures r.buckets.Keys == cloud.Keys
    ensures forall n :: n in cloud && n != s.client.bucketName ==> r.buckets[n] == cloud[n]
    ensures s.bucketName == [] ==> r.buckets == cloud && r.calls == []
    ensures s.bucketName != [] && s.client.bucketName in cloud ==>
      var alone := SyncFiles(cloud[s.client.bucketName], walk, fingerprint, dryRun);
      r.buckets[s.client.bucketName] == alone.bucket && r.calls == alone.calls && r.status == alone.status
    ensures s.client.bucketName in cloud ==> r.buckets[s.client.bucketName].faults == cloud[s.client.bucketName].faults
    ensures s.client.bucketName !in cloud ==> r.buckets == cloud
    ensures s.bucketName != [] && s.client.bucketName !in cloud ==>
      && (r.status.Pass? <==> dryRun || CountRegular(walk) == 0)
      && (r.status.Fail? ==> r.status.error == UploadFailed(NO_SUCH_BUCKET))
      && (dryRun ==> r.calls == SyncFiles(Bucket(map[], map[]), walk, fingerprint, true).calls)
      && (!dryRun ==> r.calls == FirstUploadAttempt(walk, fingerprint))
  {
    if s.bucketName == [] then CloudRun(cloud, [], Fail(MissingBucketName))
    else
      var name := s.client.bucketName;
      match Get(cloud, name)
      case Some(b) =>
        var run := SyncFiles(b, walk, fingerprint, dryRun);
        CloudRun(cloud[name := run.bucket], run.calls, run.status)
      case None =>
        AbsentBucketLoop(Bucket(map[], map[]), walk, fingerprint, dryRun);
        AbsentDryLoopIsEmptySync(walk, fingerprint);
        var run := RunLoop(AbsentBucketStep(fingerprint, dryRun), Bucket(map[], map[]), walk);
        CloudRun(cloud, run.calls, run.status)
  }

  /** After `SetBucketName(s, n)` a run works on bucket `n` and nothing else:
      every other bucket is left as it was, and bucket `n` ends as a sync of
      it alone would leave it, with the same calls and status. */
  lemma RebindTargetsNewBucket(s: SyncerState, n: string, cloud: Buckets, walk: seq<Entry>, fingerprint: Bytes -> Digest, dryRun: bool)
    requires n in cloud
    ensures
      var s' := SetBucketName(s, n);
      var r := SyncCloud(s', cloud, walk, fingerprint, dryRun);
      var alone := Sync(s', cloud[n], walk, fingerprint, dryRun);
      && (forall m :: m in cloud && m != n ==> r.buckets[m] == cloud[m])
      && r.buckets[n] == alone.bucket && r.calls == alone.calls && r.status == alone.status
  {
  }

  /** What a run does depends on the service only through the client's
      bucket: two services that agree on that bucket (both hold it, equal,
      or neither holds it) see the same calls, the same status and the same
      resulting bucket. */
  lemma SyncCloudReadsOnlyClientBucket(s: SyncerState, c1: Buckets, c2: Buckets, walk: seq<Entry>, fingerprint: Bytes -> Digest, dryRun: bool)
    requires
      || (s.client.bucketName in c1 && s.client.bucketName in c2 && c1[s.client.bucketName] == c2[s.client.bucketName])
      || (s.client.bucketName !in c1 && s.client.bucketName !in c2)
    ensures SyncCloud(s, c1, walk, fingerprint, dryRun).calls == SyncCloud(s, c2, walk, fingerprint, dryRun).calls
    ensures SyncCloud(s, c1, walk, fingerprint, dryRun).status == SyncCloud(s, c2, walk, fingerprint, dryRun).status
    ensures s.client.bucketName in c1 ==>
      SyncCloud(s, c1, walk, fingerprint, dryRun).buckets[s.client.bucketName]
        == SyncCloud(s, c2, walk, fingerprint, dryRun).buckets[s.client.bucketName]
  {
  }
}
