# Sync-decision engine of private-file-saver, in Dafny

This project models the core of `Syncer.sync`: the loop that walks a target
directory, fingerprints every regular file, probes the remote bucket for an
object keyed by the file's relative path, and uploads the file with metadata
`{'md5sum': <fingerprint>}` when the object is missing or records another
fingerprint, unless the run is a dry run. It proves what that loop promises:
how the existence probe maps store answers, which file gets which upload, that
a dry run never touches the bucket, that the first store error other than
not-found stops the run, and that a second run over an unchanged tree uploads
nothing.

Files and modules:

- `wrappers.dfy`, module `Wrappers`: `Option`, `Result`, `Outcome`, map lookup.
- `store.dfy`, module `ObjectStore`: the bucket the client is bound to. It holds
  the objects' metadata maps and a static map of keys the service refuses,
  each with the error code it answers. `GetObjectMetadata` stands for
  `client.get_object(key).metadata`, `PutObject` for `client.put_object`.
- `syncer.dfy`, module `Syncer`: walk entries, the tagged probe result
  `Found | NotFound | Failed`, `IsObjectExists`, `Classify`, the loop step
  `SyncEntry`, the loop `RunLoop`/`SyncFiles`, `Sync`, `Scan`, `SetBucketName`.
- `cloud.dfy`, module `Cloud`: the service's named buckets, and a run that
  reaches only the bucket its client is bound to.
- `properties.dfy`, module `SyncProperties`: lemmas about whole runs.
- `scenario.dfy`, module `Scenario`: the two scenarios of the test file.

How the model is built:

- A sync run is a pure function. It returns a `SyncRun`, which holds the bucket
  afterwards, the client calls issued in order (`GetMetadata(key)` and
  `Put(key, filePath, metadata)`), and the completion status. On an error the
  bucket keeps the uploads made before it, as the Python exception leaves them.
- The fingerprint (`calc_md5sum`) is a function-typed parameter
  `Bytes -> Digest`. `core/utils` is not part of this model. Because Dafny
  functions are deterministic, equal contents always get equal fingerprints.
- The walk is a given sequence of entries, `RegularFile(path, content)` or
  `Other(path)`. `Other` covers everything `os.path.isfile` rejects.
- For every file the source fetches the metadata of an existing object twice:
  once inside `_is_object_exists` and once at line 45. The model issues and
  records both calls. Store faults are static per key, so both fetches agree.

Points where the code and its tests say different things, and what the model
does:

- The sync test expects a reported state `UPLOADED` after syncing
  (test/syncer_test.py:96). No such state exists in core/syncer.py: `sync`
  reports nothing, and the classification of lines 40-47 has only three
  outcomes. The model has exactly those three.
- The sync test calls `_syncer.sync(tmpdir)` (test/syncer_test.py:91). That
  passes the directory as `dry_run`, which is truthy, so the run is a dry run.
  The walk also starts from `TARGET_PATH` (core/syncer.py:30), not from the
  argument. `Scenario.FreshBucketDrySync` states what that call does: nothing
  is uploaded and every file still scans as not uploaded.
  `Scenario.FreshBucketSync` states the real run (`dry_run=False`) that the
  test evidently means: every file then scans as synced. Both take the walk to
  be the test's ten files.
- The tests construct `Syncer(BUCKET_NAME)` (test/syncer_test.py:34, 81), but
  `__init__` takes no argument (core/syncer.py:13). The bucket is the
  configured default unless `set_bucket_name` changes it. The model follows
  the code: `NewSyncer` takes the default name, and `SetBucketName` rebinds.
- The scan test's per-file assertions (test/syncer_test.py:66-71) do not match
  what the code reports. `666.txt` is at index 5, so it is never uploaded and
  the code reports it `NOT_UPLOADED`, not `NOT_SYNCED`. The file edited at
  lines 51-54 is the one at index 6, `777.txt`. It was uploaded, so the code
  reports it `NOT_SYNCED`, not `SYNCED`. Those assertions would fail as
  written. Only the count of four synced files (lines 73-74) holds, and that
  is what `Scenario.TestFileState` and `Scenario.EditedTreeScan` prove.
- core/syncer.py:8 imports its client from `core.s3_client`, a module that is
  not part of this model. The tests use `core.aws.s3` instead
  (test/syncer_test.py:5). The model assumes the syncer's client behaves like
  core/aws/s3.py:37-42. Fetching an object's metadata reads the object in the
  bound bucket, and an upload goes through boto3's `upload_file` with the
  metadata as `ExtraArgs`.
- `scan` is called by the tests but does not exist in core/syncer.py.
  `Syncer.Scan` is the classification of lines 40-47 applied to each regular
  file in walk order. It raises the first store error it meets.
- `os.path.isfile` (core/syncer.py:36) follows symbolic links, so a link to a
  regular file is synced. In the model the walk decides which entries are
  `RegularFile`.
- `sync` defaults to `dry_run=True` (core/syncer.py:20). `Sync` takes the flag
  explicitly.

## Model

| member | source | states |
|---|---|---|
| `ObjectStore.GetObjectMetadata` | core/syncer.py:67-68 | A metadata fetch answers the stored metadata exactly when the key is stored and not refused. A refused key answers the service's error code. A missing key answers `404`. |
| `ObjectStore.PutObject` | core/aws/s3.py:40-42 | Taking the syncer's client to upload as this client does, an upload replaces the object's metadata wholesale with the given map. It adds the key if it is new, leaves every other object unchanged, and leaves the refused keys as they were. |
| `Syncer.UploadMetadata` | core/syncer.py:65 | The uploaded metadata has exactly one entry, `md5sum`, holding the fingerprint. |
| `Syncer.UploadFile` | core/syncer.py:61-65 | A dry run issues no call and keeps the bucket. A real run issues one `Put` whose key and source file are both the file's path and whose metadata is exactly `{md5sum: fp}`. It stores that metadata under the path and changes no other object. |
| `Syncer.IsObjectExists` | core/syncer.py:51-59 | The probe gives `true` exactly when the metadata fetch succeeds, and `false` exactly when it fails with code `404`. Any other code is re-raised unchanged, never turned into `false`. |
| `Syncer.ProbeObject` | core/syncer.py:51-59 | The tagged probe is `Found(metadata)`, `NotFound` or `Failed(code)` exactly as `IsObjectExists` gives true, false or an error. A failure code is never `404`, and found metadata is the stored metadata. |
| `Syncer.Classify` | core/syncer.py:40-47 | A file is `NotUploaded` exactly when the store answers not-found. It is `Synced` exactly when the object is present and its `md5sum` entry equals the local fingerprint. It is `NotSynced` exactly when the object is present and its `md5sum` is missing or different. Any other store error is passed on, and the error given is exactly the code the store answered for that key. |
| `Syncer.SyncEntry` | core/syncer.py:36-49 | A non-regular entry issues no call. For a file, the step is the one its classification calls for: on a store error it stops after one probe; a missing object gets the probe plus one upload; a present object gets two metadata fetches, plus one upload only when not synced. |
| `Syncer.SyncLoopKeepsFaults` | core/syncer.py:35-49 | The loop never changes which keys the service refuses, and the only error it raises is a store error. |
| `Syncer.SyncFiles` | core/syncer.py:34-49 | The loop over the walk keeps the refused keys, and only a store error can stop it. |
| `Syncer.Sync` | core/syncer.py:27-28 | A run fails with the missing-bucket error exactly when the bucket name is empty. In that case it issues no probe and no upload and leaves the bucket unchanged. |
| `Syncer.NewSyncer` | core/syncer.py:13-16 | A new syncer is set to the default bucket, and its client is bound to that bucket. |
| `Syncer.SetBucketName` | core/syncer.py:70-77 | After a change, both the bucket name and the client's binding are the new name. |
| `Syncer.RegularFiles` | core/syncer.py:35-36 | Only regular files of the walk are kept, and every regular file of the walk is kept. |
| `Syncer.RegularFilesCount` | core/syncer.py:35-36 | There are exactly as many kept entries as the walk has regular files. |
| `Syncer.RegularFilesInWalkOrder` | core/syncer.py:35-36 | The regular file at walk index `i` sits at the position given by the number of regular files before it. So the files keep walk order and each appears once. |
| `Syncer.Scan` | core/syncer.py:40-47 | A successful scan reports every regular file once, in walk order, with its classification. It fails exactly when some file meets a store error other than not-found, and the error it gives is that file's error. |
| `Syncer.ScanStopsAtFirstError` | core/syncer.py:35-57 | A failing scan gives the error of the first regular file, in walk order, whose classification fails. Every regular file before it classifies without error. |
| `Cloud.AbsentBucketLoop` | core/syncer.py:35-42 | When the client's bucket does not exist, every probe answers not-found, so the loop sends each regular file to upload. The loop changes nothing. It completes exactly when it is a dry run or the walk has no regular file. Otherwise it fails with an upload failure carrying `NoSuchBucket`. |
| `Cloud.AbsentBucketStepMatchesEntry` | core/syncer.py:36-42 | Against a missing bucket, the step issues the same calls `SyncEntry` issues against an empty bucket. A dry step is identical to it. A real step differs only in that the upload is refused: nothing is stored and the run stops. |
| `Cloud.SyncCloud` | core/syncer.py:27-28 | An empty syncer name raises before any call and changes no bucket. Otherwise the run works on the bucket named by the client's binding (core/syncer.py:65, 68). If that bucket exists, the calls, the status and its new state are exactly those of the loop over it alone. If it is missing, nothing changes. A dry run then issues exactly the calls of a dry sync of an empty bucket and completes. A real run issues the probe and refused upload of the first regular file and fails with `UploadFailed("NoSuchBucket")`, or completes if there is no regular file. Every other bucket is unchanged, and no bucket is created or removed. |
| `Cloud.AbsentDryLoopIsEmptySync` | core/syncer.py:35-42 | A dry run against a missing bucket is, call for call and in status, a dry sync of an empty bucket. |
| `Cloud.SyncCloudReadsOnlyClientBucket` | core/syncer.py:65-68 | Two services that agree on the client's bucket give the same calls, the same status and the same resulting bucket. |
| `Cloud.RebindTargetsNewBucket` | core/syncer.py:70-77 | After `SetBucketName(s, n)`, a run leaves every bucket but `n` unchanged. It leaves `n` as a sync of that bucket alone would, with the same calls and status. |
| `SyncProperties.DryRunLeavesBucket` | core/syncer.py:61-63 | Over every walk, a dry-run loop issues no upload and leaves the bucket exactly as it was. |
| `SyncProperties.DrySyncIsReportOnly` | core/syncer.py:24-63 | A dry sync leaves the bucket unchanged and uploads nothing, so a scan after it reports exactly what a scan before it reported. |
| `SyncProperties.CallsOnlyOnRegularFiles` | core/syncer.py:35-40 | Every probe and upload of a run is about the path of a regular file of the walk. |
| `SyncProperties.DirectoriesNeverProbed` | core/syncer.py:35-36 | When the walk's paths are distinct, no call of a run concerns a directory or other non-regular entry. |
| `SyncProperties.LoopAppendStops` | core/syncer.py:35-57 | Once the loop has raised within a prefix of the walk, the rest of the walk makes no difference to the run. |
| `SyncProperties.LoopAppend` | core/syncer.py:35-49 | Running the loop over two parts of a walk in turn is running it over the joined walk. The second part starts from the bucket the first left, and the calls are concatenated. |
| `SyncProperties.FailFast` | core/syncer.py:35-57 | A non-404 failure on a file ends the run with that error, right after that file's one probe. Later files are neither probed nor uploaded, and the uploads made for earlier files stay in the bucket. |
| `SyncProperties.SyncFilesFrame` | core/syncer.py:61-65 | A run creates, changes or drops no object whose key is not the path of one of its regular files. |
| `SyncProperties.RunCompletesIffNoStoreError` | core/syncer.py:51-59 | A run completes exactly when no regular file of its walk meets a store error other than not-found. |
| `SyncProperties.CompletedRunRecordsFingerprints` | core/syncer.py:40-49 | After a completed real run over distinct paths, every regular file's object records that file's fingerprint under `md5sum`. |
| `SyncProperties.AllSyncedUploadsNothing` | core/syncer.py:45-49 | When every file classifies as synced, a run completes with no upload and leaves the bucket unchanged. |
| `SyncProperties.SecondSyncUploadsNothing` | core/syncer.py:35-49 | After a completed real run, every file classifies as synced. A second run over the unchanged tree, dry or real, completes with zero uploads and no change to the bucket. |
| `SyncProperties.ScanAfterSyncAllSynced` | core/syncer.py:40-47 | Assume the walk's paths are distinct and the service answers `404` only for absent objects. Then after a completed real run, a scan succeeds and reports every regular file, in order, as synced. |
| `Scenario.TestFileState` | test/syncer_test.py:63-71 | In the scan test, a file at an odd index is not uploaded, the edited file at index 6 is not synced, and every other file at an even index is synced. |
| `Scenario.ExpectedSyncedCount` | test/syncer_test.py:73-74 | Exactly four of the expected reports are synced. |
| `Scenario.EditedTreeScan` | test/syncer_test.py:42-74 | The scan test's scan succeeds with exactly the expected ten reports, four of them synced. This holds for any ten distinct names, walked in creation order, and any fingerprint that tells the edit apart. |
| `Scenario.ScanTestScenario` | test/syncer_test.py:11-74 | With the test's own file names ("111.txt" … "101010.txt") and contents, the scan succeeds and counts four synced files. |
| `Scenario.FreshBucketScan` | test/syncer_test.py:84-88 | Over a fresh bucket, all ten new files scan as not uploaded. |
| `Scenario.FreshBucketDrySync` | test/syncer_test.py:90-96 | The test's `sync(tmpdir)` is a dry run. Over a fresh bucket it uploads nothing, and all ten files still scan as not uploaded. |
| `Scenario.FreshBucketSync` | core/syncer.py:35-49 | A real sync of ten new files into a fresh bucket completes, and afterwards all ten scan as synced. This is the run the sync test evidently intends. |

## Left out

- The store client beyond fetching metadata and uploading (core/aws/s3.py): credentials, `TransferConfig` multipart tuning, region and bucket listing, `list_objects`, `download_object`. These are plumbing around boto3.
- Object bodies: the bucket keeps only each object's metadata, which is all the sync decision reads.
- Upload failures into an existing bucket: `PutObject` always succeeds. An exception from `put_object` would also end the run, but the store's upload path is not part of this model.
- Read errors while fingerprinting: `calc_md5sum` is in `core/utils`, which is not part of this model. The fingerprint is a total function of the content, and the 4 MiB `CHUNK_SIZE` (core/syncer.py:17) is unused by the code.
- The directory walk (`os.chdir`, `os.path.abspath(TARGET_PATH)`, `glob.iglob("**", recursive=...)`, core/syncer.py:30-34): the walk is a given sequence of entries. The `recursive` flag, hidden-file skipping and a failing `chdir` are therefore not modelled.
- Logging (core/syncer.py:25, 31, 41, 48, 71, 76).
- The `dry_run` attribute that `sync` stores on the instance (core/syncer.py:24): it is only read by `_upload_file` within the same run, so `Sync` passes the flag through instead.
- Transient errors that change from one call to the next: store faults are a fixed map per key. The second metadata fetch of a present object (core/syncer.py:45) therefore cannot fail after the first succeeded. Its error branch is modelled, but no input reaches it. In particular, an object deleted between the two fetches makes the code raise that `404` instead of uploading, and the model cannot show this.
- Upload into a missing bucket: `Cloud` takes the service to answer a metadata fetch in a bucket that does not exist with `404`. Assuming the syncer's client uploads as core/aws/s3.py:41-42 does, through boto3's `upload_file`, the refused upload raises `S3UploadFailedError` rather than a `ClientError`. The model records this as the separate error `UploadFailed("NoSuchBucket")`, not as a re-raised store error. The exception's exact text is not modelled.
- SyncProperties.SecondSyncUploadsNothing: assumes the service answers `404` only for absent objects (`No404Faults`). A service that answers `404` for a stored object makes the code re-upload that file on every run.
- Scenario.EditedTreeScan: the test's walk is taken in creation order, with upload status tied to walk index. `glob.iglob` (core/syncer.py:34) yields files in filesystem order. The count of four synced files does not depend on the order, but it is proved only for creation order.
- SyncProperties.ScanAfterSyncAllSynced: assumes distinct walk paths and a service that answers `404` only for absent objects (`No404Faults`), for the same reason as `SecondSyncUploadsNothing`.
