/** The two scenarios of the syncer's tests, stated over any fingerprint
    function: ten files "111.txt" … "101010.txt" with the same content, every
    other one uploaded beforehand, one uploaded file edited afterwards; and a
    fresh bucket synced once. */
module Scenario {
  import opened Wrappers
  import opened ObjectStore
  import opened Syncer
  import opened SyncProperties

  /** The names the test gives its ten files: the index written three times. */
  const FileNames: seq<string> := [
    "111.txt", "222.txt", "333.txt", "444.txt", "555.txt",
    "666.txt", "777.txt", "888.txt", "999.txt", "101010.txt"]

  /** "XXXXXXXXXXX", the content every file is created with. */
  const Original: Bytes := seq(11, _ => 0x58)

  /** "yyyyyyyyyyyy", the content the edited file is given. */
  const Modified: Bytes := seq(12, _ => 0x79)

  /** The names of a walk's files are pairwise different. */
  predicate DistinctNames(names: seq<string>)
  {
    forall i, j :: 0 <= i < j < |names| ==> names[i] != names[j]
  }

  /** The ten test files as the walk yields them, the file at index 6 holding
      `edited` and every other one `original`. */
  function TestWalk(names: seq<string>, original: Bytes, edited: Bytes): (walk: seq<Entry>)
    requires |names| == 10
  {
    seq(10, i requires 0 <= i < 10 => RegularFile(names[i], if i == 6 then edited else original))
  }

  /** The names the test uploads before scanning: those at even indices. */
  function UploadedNames(names: seq<string>): set<string>
  {
    set i | 0 <= i < |names| && i % 2 == 0 :: names[i]
  }

  /** The bucket after the test uploaded the files at even indices, each with
      fingerprint `d` as its metadata. */
  function SeededBucket(names: seq<string>, d: Digest): Bucket
  {
    Bucket(map k | k in UploadedNames(names) :: UploadMetadata(d), map[])
  }

  /** What the scan should report for the file at index `i`. */
  function ExpectedState(i: nat): SyncState
  {
    if i % 2 == 1 then NotUploaded else if i == 6 then NotSynced else Synced
  }

  /** Number of reports in the given state. */
  function CountState(reports: seq<Report>, st: SyncState): (n: nat)
    ensures n <= |reports|
  {
    if |reports| == 0 then 0
    else (if reports[0].state == st then 1 else 0) + CountState(reports[1..], st)
  }

  /** A walk of regular files only is its own list of regular files. */
  lemma {:induction false} RegularFilesOfFiles(walk: seq<Entry>)
    requires forall i :: 0 <= i < |walk| ==> walk[i].RegularFile?
    ensures RegularFiles(walk) == walk
    decreases |walk|
  {
    if |walk| > 0 {
      RegularFilesOfFiles(walk[1..]);
    }
  }

  /** How each test file classifies against the seeded bucket. */
  lemma TestFileState(names: seq<string>, original: Bytes, edited: Bytes, fingerprint: Bytes -> Digest, i: nat)
    requires |names| == 10 && DistinctNames(names)
    requires fingerprint(original) != fingerprint(edited)
    requires i < 10
    ensures
      var e := TestWalk(names, original, edited)[i];
      Classify(SeededBucket(names, fingerprint(original)), e.path, fingerprint(e.content)) == Success(ExpectedState(i))
  {
  }

  /** The reports the scan is expected to give for the test walk. */
  function ExpectedReports(names: seq<string>): (rs: seq<Report>)
    requires |names| == 10
  {
    seq(10, i requires 0 <= i < 10 => Report(names[i], ExpectedState(i)))
  }

  /** Four of the expected reports say synced: indices 0, 2, 4 and 8. */
  lemma ExpectedSyncedCount(names: seq<string>)
    requires |names| == 10
    ensures CountState(ExpectedReports(names), Synced) == 4
  {
    var rs := ExpectedReports(names);
    assert CountState(rs[10..], Synced) == 0;
    assert rs[9..][1..] == rs[10..];
    assert CountState(rs[9..], Synced) == 0;
    assert rs[8..][1..] == rs[9..];
    assert CountState(rs[8..], Synced) == 1;
    assert rs[7..][1..] == rs[8..];
    assert CountState(rs[7..], Synced) == 1;
    assert rs[6..][1..] == rs[7..];
    assert CountState(rs[6..], Synced) == 1;
    assert rs[5..][1..] == rs[6..];
    assert CountState(rs[5..], Synced) == 1;
    assert rs[4..][1..] == rs[5..];
    assert CountState(rs[4..], Synced) == 2;
    assert rs[3..][1..] == rs[4..];
    assert CountState(rs[3..], Synced) == 2;
    assert rs[2..][1..] == rs[3..];
    assert CountState(rs[2..], Synced) == 3;
    assert rs[1..][1..] == rs[2..];
    assert CountState(rs[1..], Synced) == 3;
    assert rs[0..][1..] == rs[1..];
    assert CountState(rs[0..], Synced) == 4;
    assert rs[0..] == rs;
  }

  /** Scenario of the scan test: ten files, every other one uploaded with its
      fingerprint, the uploaded file at index 6 then edited so that its
      fingerprint changes. The scan reports the five never-uploaded files as
      not uploaded, the edited file as not synced and the other four uploaded
      files as synced: exactly four synced files. */
  lemma EditedTreeScan(names: seq<string>, original: Bytes, edited: Bytes, fingerprint: Bytes -> Digest)
    requires |names| == 10 && DistinctNames(names)
    requires fingerprint(original) != fingerprint(edited)
    ensures
      var r := Scan(SeededBucket(names, fingerprint(original)), TestWalk(names, original, edited), fingerprint);
      r == Success(ExpectedReports(names)) && CountState(r.value, Synced) == 4
  {
    var walk := TestWalk(names, original, edited);
    var b := SeededBucket(names, fingerprint(original));
    RegularFilesOfFiles(walk);
    var r := Scan(b, walk, fingerprint);
    assert r.Success?;
    forall i | 0 <= i < 10 ensures r.value[i] == ExpectedReports(names)[i] {
      TestFileState(names, original, edited, fingerprint, i);
    }
    assert r.value == ExpectedReports(names);
    ExpectedSyncedCount(names);
  }

  /** The scan test as written: its file names and contents, for any
      fingerprint that tells the original and the edited content apart. */
  lemma ScanTestScenario(fingerprint: Bytes -> Digest)
    requires fingerprint(Original) != fingerprint(Modified)
    ensures
      var r := Scan(SeededBucket(FileNames, fingerprint(Original)), TestWalk(FileNames, Original, Modified), fingerprint);
      r.Success? && CountState(r.value, Synced) == 4
  {
    assert DistinctNames(FileNames);
    EditedTreeScan(FileNames, Original, Modified, fingerprint);
  }

  /** The ten test files before any edit. */
  function FreshWalk(names: seq<string>, original: Bytes): (walk: seq<Entry>)
    requires |names| == 10
  {
    seq(10, i requires 0 <= i < 10 => RegularFile(names[i], original))
  }

  /** Over a fresh bucket every test file scans as not uploaded. */
  lemma FreshBucketScan(names: seq<string>, original: Bytes, fingerprint: Bytes -> Digest)
    requires |names| == 10
    ensures
      var before := Scan(Bucket(map[], map[]), FreshWalk(names, original), fingerprint);
      && before.Success? && |before.value| == 10
      && (forall i :: 0 <= i < 10 ==> before.value[i] == Report(names[i], NotUploaded))
  {
    RegularFilesOfFiles(FreshWalk(names, original));
  }

  /** The sync test as written: `sync(tmpdir)` passes the directory as the
      dry-run flag, which is truthy, so the run is a dry run. It uploads
      nothing, and afterwards every file still scans as not uploaded. */
  lemma FreshBucketDrySync(s: SyncerState, names: seq<string>, original: Bytes, fingerprint: Bytes -> Digest)
    requires |names| == 10
    ensures
      var walk := FreshWalk(names, original);
      var run := Sync(s, Bucket(map[], map[]), walk, fingerprint, true);
      var after := Scan(run.bucket, walk, fingerprint);
      && run.bucket == Bucket(map[], map[]) && NoUploads(run.calls)
      && after.Success? && |after.value| == 10
      && (forall i :: 0 <= i < 10 ==> after.value[i] == Report(names[i], NotUploaded))
  {
    DrySyncIsReportOnly(s, Bucket(map[], map[]), FreshWalk(names, original), fingerprint);
    FreshBucketScan(names, original, fingerprint);
  }

  /** The same scenario with a real run, as the sync is meant to be used:
      over a fresh bucket every file scans as not uploaded; a real sync
      completes, and afterwards every file scans as synced. */
  lemma FreshBucketSync(s: SyncerState, names: seq<string>, original: Bytes, fingerprint: Bytes -> Digest)
    requires s.bucketName != []
    requires |names| == 10 && DistinctNames(names)
    ensures
      var walk := FreshWalk(names, original);
      var run := Sync(s, Bucket(map[], map[]), walk, fingerprint, false);
      var after := Scan(run.bucket, walk, fingerprint);
      && run.status.Pass?
      && after.Success? && |after.value| == 10
      && (forall i :: 0 <= i < 10 ==> after.value[i] == Report(names[i], Synced))
  {
    var walk := FreshWalk(names, original);
    var empty := Bucket(map[], map[]);
    RegularFilesOfFiles(walk);
    assert NoStoreErrors(empty, walk);
    RunCompletesIffNoStoreError(empty, walk, fingerprint, false);
    ScanAfterSyncAllSynced(s, empty, walk, fingerprint);
  }
}
