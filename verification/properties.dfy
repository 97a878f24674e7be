/** Properties of whole sync runs: dry runs never mutate the bucket, only
    regular files are ever probed, the first store error stops the run while
    keeping earlier uploads, and a second run over an unchanged tree uploads
    nothing. */
module SyncProperties {
  import opened Wrappers
  import opened ObjectStore
  import opened Syncer

  /** The walk yields every path at most once. */
  predicate DistinctPaths(walk: seq<Entry>)
  {
    forall i, j :: 0 <= i < j < |walk| ==> walk[i].path != walk[j].path
  }

  /** The paths of the regular files of a walk. */
  function RegularFilePaths(walk: seq<Entry>): (paths: set<string>)
  {
    set e | e in walk && e.RegularFile? :: e.path
  }

  /** No call of the trace is an upload. */
  predicate NoUploads(calls: seq<Call>)
  {
    forall c :: c in calls ==> !c.Put?
  }

  /** The store answers not-found only for objects that are really absent. */
  predicate No404Faults(b: Bucket)
  {
    forall k :: k in b.faults ==> b.faults[k] != NOT_FOUND
  }

  /** A dry run issues no upload and leaves the bucket exactly as it was, for
      every walk. */
  lemma {:induction false} DryRunLeavesBucket(b: Bucket, walk: seq<Entry>, fingerprint: Bytes -> Digest)
    ensures SyncFiles(b, walk, fingerprint, true).bucket == b
    ensures NoUploads(SyncFiles(b, walk, fingerprint, true).calls)
    decreases |walk|
  {
    if |walk| > 0 {
      var first := SyncEntry(b, walk[0], fingerprint, true);
      if first.status.Pass? {
        DryRunLeavesBucket(b, walk[1..], fingerprint);
      }
    }
  }

  /** A dry sync leaves the bucket unchanged, so a scan after it reports what a
      scan before it reported. */
  lemma DrySyncIsReportOnly(s: SyncerState, b: Bucket, walk: seq<Entry>, fingerprint: Bytes -> Digest)
    ensures Sync(s, b, walk, fingerprint, true).bucket == b
    ensures NoUploads(Sync(s, b, walk, fingerprint, true).calls)
    ensures Scan(Sync(s, b, walk, fingerprint, true).bucket, walk, fingerprint) == Scan(b, walk, fingerprint)
  {
    DryRunLeavesBucket(b, walk, fingerprint);
  }

  /** Every call of a run is about the path of a regular file of the walk. */
  lemma {:induction false} CallsOnlyOnRegularFiles(b: Bucket, walk: seq<Entry>, fingerprint: Bytes -> Digest, dryRun: bool)
    ensures forall c :: c in SyncFiles(b, walk, fingerprint, dryRun).calls ==> c.key in RegularFilePaths(walk)
    decreases |walk|
  {
    if |walk| > 0 {
      var first := SyncEntry(b, walk[0], fingerprint, dryRun);
      if first.status.Pass? {
        CallsOnlyOnRegularFiles(first.bucket, walk[1..], fingerprint, dryRun);
        assert RegularFilePaths(walk[1..]) <= RegularFilePaths(walk) by {
          forall e | e in walk[1..] ensures e in walk { }
        }
      }
    }
  }

  /** Directories and other non-regular entries are never probed nor uploaded. */
  lemma DirectoriesNeverProbed(b: Bucket, walk: seq<Entry>, fingerprint: Bytes -> Digest, dryRun: bool, i: nat)
    requires DistinctPaths(walk)
    requires i < |walk| && walk[i].Other?
    ensures forall c :: c in SyncFiles(b, walk, fingerprint, dryRun).calls ==> c.key != walk[i].path
  {
    CallsOnlyOnRegularFiles(b, walk, fingerprint, dryRun);
    assert walk[i].path !in RegularFilePaths(walk);
  }

  /** A loop over a concatenated walk that stops with an error within the
      first part is the loop over the first part alone. */
  lemma {:induction false} LoopAppendStops(step: (Bucket, Entry) -> SyncRun, b: Bucket, a: seq<Entry>, c: seq<Entry>)
    requires RunLoop(step, b, a).status.Fail?
    ensures RunLoop(step, b, a + c) == RunLoop(step, b, a)
    decreases |a|
  {
    assert (a + c)[1..] == a[1..] + c;
    if step(b, a[0]).status.Pass? {
      LoopAppendStops(step, step(b, a[0]).bucket, a[1..], c);
    }
  }

  /** A loop over a concatenated walk whose first part completes continues
      with the second part from the bucket the first part left, and its calls
      are those of the first part followed by those of the second. */
  lemma {:induction false} LoopAppend(step: (Bucket, Entry) -> SyncRun, b: Bucket, a: seq<Entry>, c: seq<Entry>)
    requires RunLoop(step, b, a).status.Pass?
    ensures
      var ra := RunLoop(step, b, a);
      var rc := RunLoop(step, ra.bucket, c);
      RunLoop(step, b, a + c) == SyncRun(rc.bucket, ra.calls + rc.calls, rc.status)
    decreases |a|
  {
    if |a| == 0 {
      assert a + c == c;
    } else {
      var first := step(b, a[0]);
      var tail := RunLoop(step, first.bucket, a[1..]);
      var rc := RunLoop(step, tail.bucket, c);
      assert (a + c)[1..] == a[1..] + c;
      LoopAppend(step, first.bucket, a[1..], c);
      assert first.calls + (tail.calls + rc.calls) == (first.calls + tail.calls) + rc.calls;
    }
  }

  /** Fail-fast: when the file `e` meets a store error other than not-found,
      the run stops there. The files after it are neither probed nor uploaded,
      and the uploads made for the files before it stay in the bucket. */
  lemma FailFast(b: Bucket, before: seq<Entry>, e: Entry, after: seq<Entry>, fingerprint: Bytes -> Digest, dryRun: bool)
    requires SyncFiles(b, before, fingerprint, dryRun).status.Pass?
    requires e.RegularFile?
    requires Classify(SyncFiles(b, before, fingerprint, dryRun).bucket, e.path, fingerprint(e.content)).Failure?
    ensures
      var done := SyncFiles(b, before, fingerprint, dryRun);
      var code := Classify(done.bucket, e.path, fingerprint(e.content)).error;
      SyncFiles(b, before + [e] + after, fingerprint, dryRun)
        == SyncRun(done.bucket, done.calls + [GetMetadata(e.path)], Fail(ClientFailure(code)))
  {
    LoopAppend(EntryStep(fingerprint, dryRun), b, before, [e] + after);
    assert before + [e] + after == before + ([e] + after);
    assert ([e] + after)[0] == e;
  }

  /** A run changes no object outside the regular files of its walk. */
  lemma {:induction false} SyncFilesFrame(b: Bucket, walk: seq<Entry>, fingerprint: Bytes -> Digest, dryRun: bool, k: string)
    requires k !in RegularFilePaths(walk)
    ensures k in SyncFiles(b, walk, fingerprint, dryRun).bucket.objects <==> k in b.objects
    ensures k in b.objects ==> SyncFiles(b, walk, fingerprint, dryRun).bucket.objects[k] == b.objects[k]
    decreases |walk|
  {
    if |walk| > 0 {
      var first := SyncEntry(b, walk[0], fingerprint, dryRun);
      if first.status.Pass? {
        assert RegularFilePaths(walk[1..]) <= RegularFilePaths(walk) by {
          forall e | e in walk[1..] ensures e in walk { }
        }
        SyncFilesFrame(first.bucket, walk[1..], fingerprint, dryRun, k);
      }
    }
  }

  /** No regular file of the walk meets a store error other than not-found. */
  predicate NoStoreErrors(b: Bucket, walk: seq<Entry>)
  {
    forall e :: e in walk && e.RegularFile? ==> e.path !in b.faults || b.faults[e.path] == NOT_FOUND
  }

  /** A run completes exactly when no regular file of its walk meets a store
      error other than not-found. */
  lemma {:induction false} RunCompletesIffNoStoreError(b: Bucket, walk: seq<Entry>, fingerprint: Bytes -> Digest, dryRun: bool)
    ensures SyncFiles(b, walk, fingerprint, dryRun).status.Pass? <==> NoStoreErrors(b, walk)
    decreases |walk|
  {
    if |walk| > 0 {
      var first := SyncEntry(b, walk[0], fingerprint, dryRun);
      RunCompletesIffNoStoreError(first.bucket, walk[1..], fingerprint, dryRun);
      assert forall e :: e in walk <==> e == walk[0] || e in walk[1..];
    }
  }

  /** After a completed real run every regular file's object records the
      file's fingerprint under "md5sum". */
  lemma {:induction false} CompletedRunRecordsFingerprints(b: Bucket, walk: seq<Entry>, fingerprint: Bytes -> Digest)
    requires DistinctPaths(walk)
    requires SyncFiles(b, walk, fingerprint, false).status.Pass?
    ensures
      var after := SyncFiles(b, walk, fingerprint, false).bucket;
      forall e :: e in walk && e.RegularFile? ==>
        e.path in after.objects && MD5SUM_KEY in after.objects[e.path]
        && after.objects[e.path][MD5SUM_KEY] == fingerprint(e.content)
    decreases |walk|
  {
    if |walk| > 0 {
      var first := SyncEntry(b, walk[0], fingerprint, false);
      var after := SyncFiles(b, walk, fingerprint, false).bucket;
      assert DistinctPaths(walk[1..]) by {
        forall i, j | 0 <= i < j < |walk[1..]| ensures walk[1..][i].path != walk[1..][j].path {
          assert walk[1..][i] == walk[i + 1] && walk[1..][j] == walk[j + 1];
        }
      }
      CompletedRunRecordsFingerprints(first.bucket, walk[1..], fingerprint);
      forall e | e in walk && e.RegularFile?
        ensures e.path in after.objects && MD5SUM_KEY in after.objects[e.path]
          && after.objects[e.path][MD5SUM_KEY] == fingerprint(e.content)
      {
        if e == walk[0] {
          assert walk[0].path !in RegularFilePaths(walk[1..]);
          SyncFilesFrame(first.bucket, walk[1..], fingerprint, false, e.path);
        } else {
          assert e in walk[1..];
        }
      }
    }
  }

  /** A run over files that all classify as synced uploads nothing, leaves the
      bucket unchanged and completes. */
  lemma {:induction false} AllSyncedUploadsNothing(b: Bucket, walk: seq<Entry>, fingerprint: Bytes -> Digest, dryRun: bool)
    requires forall e :: e in walk && e.RegularFile? ==> Classify(b, e.path, fingerprint(e.content)) == Success(Synced)
    ensures SyncFiles(b, walk, fingerprint, dryRun) == SyncRun(b, SyncFiles(b, walk, fingerprint, dryRun).calls, Pass)
    ensures NoUploads(SyncFiles(b, walk, fingerprint, dryRun).calls)
    decreases |walk|
  {
    if |walk| > 0 {
      assert forall e :: e in walk[1..] ==> e in walk;
      AllSyncedUploadsNothing(b, walk[1..], fingerprint, dryRun);
    }
  }

  /** Idempotence: after a completed real sync, every regular file scans as
      synced, and a second sync over the unchanged tree completes with no
      upload and no change to the bucket. */
  lemma SecondSyncUploadsNothing(s: SyncerState, b: Bucket, walk: seq<Entry>, fingerprint: Bytes -> Digest, dryRun: bool)
    requires DistinctPaths(walk) && No404Faults(b)
    requires Sync(s, b, walk, fingerprint, false).status.Pass?
    ensures
      var after := Sync(s, b, walk, fingerprint, false).bucket;
      var again := Sync(s, after, walk, fingerprint, dryRun);
      && again.status.Pass? && again.bucket == after && NoUploads(again.calls)
      && (forall e :: e in walk && e.RegularFile? ==> Classify(after, e.path, fingerprint(e.content)) == Success(Synced))
  {
    var after := SyncFiles(b, walk, fingerprint, false).bucket;
    RunCompletesIffNoStoreError(b, walk, fingerprint, false);
    CompletedRunRecordsFingerprints(b, walk, fingerprint);
    AllSyncedUploadsNothing(after, walk, fingerprint, dryRun);
  }

  /** After a completed real sync a scan succeeds and reports every regular
      file of the walk, in order, as synced. */
  lemma ScanAfterSyncAllSynced(s: SyncerState, b: Bucket, walk: seq<Entry>, fingerprint: Bytes -> Digest)
    requires DistinctPaths(walk) && No404Faults(b)
    requires Sync(s, b, walk, fingerprint, false).status.Pass?
    ensures
      var r := Scan(Sync(s, b, walk, fingerprint, false).bucket, walk, fingerprint);
      && r.Success? && |r.value| == |RegularFiles(walk)|
      && forall i :: 0 <= i < |r.value| ==> r.value[i] == Report(RegularFiles(walk)[i].path, Synced)
  {
    SecondSyncUploadsNothing(s, b, walk, fingerprint, false);
  }
}
