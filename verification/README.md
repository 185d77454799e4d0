# s000 in Dafny

s000 is a single-node, S3-compatible object store. This project models the parts of it whose
correctness is not visible in any one function and proves what they promise, for all inputs, runs
and interleavings.

Strings are byte sequences in bytewise order (`Bytes`), the SQL table of object versions is a
sequence of rows with ever-growing ordinals (`SqlTable`), times are integers (nanoseconds),
durations 64-bit ones with the source's saturation and wrap-around (`Metadata`), and
digests, HMAC, AES and the time formats are function-valued parameters, so every statement holds
for all of them. What is assumed about them is written in `Ctr.BlockCipher`, `ObjectServer.EnvOk`,
`ObjectLock.TimeOk` and `SigV4.CryptoOk`; the last two are about one time each, and say that a time
reads back from its text exactly if its UTC year has four digits.

| area | files |
|---|---|
| ListObjectsV2: SQL pager against whole listing, continuation tokens | `SqlTable`, `Listing`, `Sorting`, `ListPages`, `Utf8`, `PagerAgreement` |
| Version lists, two metadata stores, transactions | `Metadata`, `Versions`, `SqlStore`, `MemoryStore`, `Transactions`, `StoreEquivalence` |
| Object handlers, multipart uploads, object lock | `ObjectServer`, `ObjectApi`, `MultipartRuns`, `ObjectLaws`, `ObjectLock` |
| Blob commit protocol | `BlobCommit` |
| SSE-S3 range reads (counter mode, section 6.5 of NIST SP 800-38A) | `Arith`, `Ctr`, `Sse` |
| aws-chunked decoder (framing as in section 7.1 of RFC 9112) | `AwsChunked` |
| Heavy-operation limiter | `HeavyLimiter` |
| Presigned URLs (AWS Signature Version 4) and credentials | `Text`, `SigV4`, `Credentials`, `Presign`, `SignatureCover` |
| Lifecycle worker | `Lifecycle` |

`dafny verify dfyconfig.toml` checks everything.

Where a promise fails, the code is modelled as it is, and the exact condition is proved:

- The SQL pager's resume rule loses the objects behind a folder marker (an object key that ends in
  the delimiter and is listed as an object) when a page ends on it. `PagesAgreeIff`,
  `IssuedPagesAgreeIff`, `SqlWalkIff` and `SqlWalkMarkersIff` say exactly when pager and listing
  agree; `FolderMarkerLosesObject` is a concrete case.
- Continuation tokens are JSON, which replaces bytes that are not UTF-8. `WalkVisitsAllIff` says
  exactly when following tokens shows the whole listing; `Utf8TokensLeadOn`: always where keys,
  prefix and delimiter are UTF-8; `NotUtf8NeverEnds`: with the keys 0xfe and 0xff a client is given
  the first page for ever.
- The SQL store's metadata column is JSON too: `Lockstep` says exactly when both stores answer
  equally, `SeenIff` which metadata comes back unchanged.
- A delete without version id in a bucket that is not versioned now looks at the lock of the latest
  version only and then removes all versions. `LockedSurvivesIff` says exactly when a locked version
  outlives a call; `SuspendingLosesLocked` gives three calls that lose it; buckets that stay
  versioned (`EnabledKeepsLocked`) or never were (`SuspendedKeepsLocked`) keep it.
- Reading an empty object without a range fails, because its last byte position is before its first;
  copying it fails for the same reason (`RangeRoundTrip`, `CompletedObject`).
- A truncated aws-chunked stream delivers a prefix of the payload and then ends like a whole one
  (`DecodePrefix`).
- A crash can leave a file that is no whole write at a committed path exactly in fsync mode Fast
  (`AlwaysWholeIff`, with `FastCanLoseACommit`). A write that was reported as done is sure to survive
  crashes exactly in mode Strict and if the entries of all directories above it were synced
  (`AcknowledgedIff`); the store never syncs those of new directories, so in every mode, Strict
  included, a crash can lose the first write to a path (`FirstWriteCanBeLost`).
- The limiter's reported depth has no bound (`DepthIsUnbounded`); `DepthWithinIff` says exactly when
  it is within workers + queue.
- A put refused for its digest has by then replaced the file of the same version id, and removes it: in
  a bucket that is not versioned now the unlocked object before stays listed and cannot be read;
  `RefusedPutLosesIff` says exactly when. Nothing else is touched by a put that fails (`FailedPutSpares`).
- A delete in a versioned bucket is answered with success also where the store does not take the
  marker, and then leaves everything as it was (`DeleteMarks`).
- A deleted object stays away until a write or promotion onto its path (`DeletedStaysGone`), or a crash:
  `CanReturnIff` says exactly when one can bring it back.
- A part refused for its digest removes the staged files of every part of the upload, while their
  records stay; completion then fails until the parts are sent again (`RunKeepsPart`, `CompleteIff`).
- A store that has its state in memory keeps a record it then fails to persist, so a part nobody
  acknowledged can have a record (`UnpersistedPartStays`). A SQL store can fail between removing a
  "null" version and inserting its successor (`ObjectServer.Save`, `WriteEffect`).
- A part upload that fails after its file was renamed into place leaves that file under the record of
  the earlier, acknowledged body; a completion that lists the acknowledged ETag then serves the other
  body (`LatePartIsServed`). Objects are what was acknowledged if the last attempt to upload each part
  was (`CompletedAcknowledged`).
- A retention date whose UTC year is 10000 or later is accepted and never locks (`RetentionLocks`,
  `LateRetentionNeverLocks`).
- A request stamped 2^63 nanoseconds or more ahead of the verifier's clock passes the skew check,
  because that difference has no 64-bit negation (`InTime` in `AcceptedIff`, `LastSecondAccepted`).
- A URL presigned for less than one second never verifies, and a retention date is cut to the second
  (`PresignedVerdict`, `RetentionLocks`).
- `RunInTx` keeps the new state in memory when persisting it fails (`RunInTx`).

## Model

| member | source | states |
|---|---|---|
| SqlTable.QueryMeaning | internal/metadata/sqlite_store.go:336-360 | a range query lists, in strictly increasing key order, exactly the visible newest versions of the bucket whose key is in range |
| Listing.EntryValueMonotone | internal/server/s3_api.go:1029-1056 | the map from key to its entry is monotone, for a delimiter of any length |
| Listing.ObjectIsNoCommonPrefix | internal/server/s3_api.go:1029-1056 | no listed object key is also a common prefix |
| Listing.EntryValueIdempotent | internal/server/s3_api.go:1029-1056 | a common prefix is its own entry |
| Listing.EntriesMeaning | internal/server/s3_api.go:1029-1056 | the listing is strictly increasing and has exactly one entry per object or common prefix |
| ListPages.EntriesFromObjects | internal/server/s3_api.go:1029-1056 | first-seen deduplication with a set builds that listing, and its final sort changes nothing |
| ListPages.ListObjects | internal/metadata/store.go:536-552 | whatever order the map is walked in, exactly the visible newest versions of the bucket, each once |
| ListPages.CutPage | internal/server/s3_api.go:896-925 | the page loop yields the next entries after the position, the truncation flag and the next position of the specification page |
| ListPages.MemoryPage | internal/server/s3_api.go:886-925 | list, sort, group and cut together yield the specification page of the bucket's objects |
| ListPages.StringPrefixUpperBound | internal/metadata/sqlite_store.go:405-417 | a key starts with the prefix exactly when it is at or above it and below the bound, if there is one; none exists exactly for prefixes of 0xff bytes |
| ListPages.PageFromRows | internal/metadata/sqlite_store.go:364-403 | the row loop yields the page over the entries of the rows its resume rule does not pass over |
| ListPages.SqlListObjectsV2 | internal/metadata/sqlite_store.go:336-403 | the pager yields the page of the whole bucket sought from the position, for every prefix, delimiter, position and page size |
| ListPages.RangeQueryIsSeek | internal/metadata/sqlite_store.go:350-372 | seeking inside the key range finds what seeking in the whole bucket finds |
| PagerAgreement.PagesAgreeIff | internal/metadata/sqlite_store.go:336-403 | pager page and in-memory page are equal in entries, flag and next position if and only if no entry is asked for or the resume rule passes over exactly the entries up to the position |
| PagerAgreement.ResumeSoundIff | internal/metadata/sqlite_store.go:371-372 | for a position the server issued, the resume rule goes wrong exactly at a folder marker that has keys under it |
| PagerAgreement.IssuedPagesAgreeIff | internal/metadata/sqlite_store.go:336-403 | for issued positions the pages agree if and only if the position is not a folder marker with keys under it |
| PagerAgreement.OneByteFolderMarker | internal/metadata/sqlite_store.go:371-372 | with a one-byte delimiter the only folder marker is the prefix itself |
| PagerAgreement.FolderMarkerLosesObject | internal/metadata/sqlite_store.go:371-372 | a two-object bucket in which the pager loses an object the listing goes on to |
| PagerAgreement.WalkVisitsAll | internal/server/s3_api.go:896-925 | if the tokens at the ends of pages lead on to the next entry, following them visits every entry exactly once, in strictly increasing order, in ceil(n/max) pages |
| PagerAgreement.WalkVisitsAllIff | internal/server/s3_api.go:1058-1088 | whatever tokens bring back, there is a walk that ends and visits the whole listing if and only if the token at the end of every page but the last is accepted and leads on to the next entry |
| PagerAgreement.Utf8TokensLeadOn | internal/server/s3_api.go:1064-1088 | with the JSON token codec every token leads on where all keys, the prefix and the delimiter are UTF-8, common prefixes included |
| PagerAgreement.NotUtf8NeverEnds | internal/server/s3_api.go:1064-1088 | two keys that are not UTF-8, in pages of one: no sequence of pages is a walk that ends |
| Utf8.CoercedIff | internal/server/s3_api.go:1064-1070 | a string comes back from the codec unchanged if and only if it is UTF-8, and longer otherwise |
| PagerAgreement.SqlWalkIff | internal/metadata/sqlite_store.go:336-403 | for any tokens, a client of the SQL pager sees the walk of the whole listing if and only if the resume rule is sound for every position its tokens bring back |
| PagerAgreement.SqlWalkMarkersIff | internal/metadata/sqlite_store.go:336-403 | with the JSON codec and UTF-8 throughout, it does if and only if no page it continues from ends on a folder marker with keys under it |
| Sorting.Sort | internal/server/s3_api.go:892-894 | sorted, and a permutation of its input, for any total preorder |
| Sorting.SortedUnique | internal/auth/sigv4.go:371-376 | under an antisymmetric order two sorted permutations are the same list |
| Versions.StepOk | internal/metadata/store.go:577-677 | every version operation keeps ids distinct and non-empty, so at most one "null" version per key |
| Versions.PutIsLatest | internal/metadata/store.go:906-919 | a put makes its version the latest and findable by id, leaves one "null" version at most, and every other id's answer alone |
| Versions.WithoutIsCut | internal/metadata/store.go:906-919 | filtering out an id of a well-formed list cuts one position |
| SqlStore.SqlStore.PutObjectVersion | internal/metadata/sqlite_store.go:826-838 | the rows of the key become the put list, with the metadata as its column brings it back, all other keys keep theirs; a used non-"null" id is refused with nothing changed |
| SqlStore.SqlStore.DeleteObject | internal/metadata/sqlite_store.go:308-310 | the rows of the key become the list with a delete marker put |
| SqlStore.SqlStore.GetLatestObjectVersion | internal/metadata/sqlite_store.go:419-422 | scanning all rows for the greatest ordinal of the key finds the last of the key's list, or nothing exactly if the key has no row |
| SqlStore.SqlStore.GetObjectVersion | internal/metadata/sqlite_store.go:424-430 | scanning all rows for the id finds the version of the key's list with it, or the latest for an empty id; not found means that no row of the key has it |
| SqlStore.SqlStore.UpdateObjectMetadata | internal/metadata/sqlite_store.go:432-439 | exactly the version with the id changes, in its metadata only, to what the column brings back of it |
| SqlStore.SqlStore.DeleteObjectVersion | internal/metadata/sqlite_store.go:441-451 | exactly the version with the id goes, and is returned |
| SqlStore.SqlStore.DeleteAllObjectVersions | internal/metadata/sqlite_store.go:453-467 | all rows of the key go, in order, and no other row |
| SqlStore.DeleteWhereReads | internal/metadata/sqlite_store.go:441-451 | deleting rows by key and id reads back as the list without that id, for every key |
| SqlStore.UpdateAllIsOne | internal/metadata/sqlite_store.go:432-439 | where ids are distinct, the set-wide UPDATE touches one version |
| MemoryStore.DropNull | internal/metadata/store.go:906-919 | the in-place filter, writing into the array it reads, leaves the list without "null" versions |
| MemoryStore.Append | internal/metadata/store.go:906-919 | append extends the slice by one, in spare capacity or in a fresh array |
| MemoryStore.RemoveAt | internal/metadata/store.go:628-650 | shifting the tail left in place cuts exactly one element |
| MemoryStore.MemoryState.PutObjectVersion | internal/metadata/store.go:906-919 | the heap slices read as the put list for the key and as before for every other key |
| MemoryStore.MemoryState.DeleteObject | internal/metadata/store.go:653-661 | the same for a delete marker |
| MemoryStore.MemoryState.GetLatestObjectVersion | internal/metadata/store.go:585-594 | the last of the list, or not found |
| MemoryStore.MemoryState.GetObjectVersion | internal/metadata/store.go:596-610 | the version with the id, or the latest for an empty id |
| MemoryStore.MemoryState.UpdateObjectMetadata | internal/metadata/store.go:612-626 | one array element changes, in its metadata only |
| MemoryStore.MemoryState.DeleteObjectVersion | internal/metadata/store.go:628-650 | exactly the version with the id goes; an emptied key disappears |
| MemoryStore.MemoryState.DeleteAllObjectVersions | internal/metadata/store.go:664-677 | the key and its list go, all else stays |
| Transactions.ApplyTx | internal/metadata/store.go:822-893 | each call on a transaction moves the heap state by the specification step, writing only what the state owns |
| Transactions.TxEffect | internal/metadata/store.go:822-893 | what each call on a transaction achieves: exactly when it succeeds, the one entry it makes, changes or removes, with the parts and configurations that go with it; a call that fails changes nothing |
| Transactions.CloneState | internal/metadata/store.go:1015-1078 | the clone has the same contents and shares no array and no part table with the original |
| Transactions.MemoryBackedStore.RunInTx | internal/metadata/store.go:784-799 | a failing callback leaves every map, array and part table of the store as it was; a succeeding one leaves exactly its calls applied in order |
| StoreEquivalence.Lockstep | internal/metadata/sqlite_store.go:304-467 | over one run of operations with fresh ids the SQL store answers, and holds, what the in-memory store does with the metadata as its column brings it back: the same if and only if that changes nothing answered; one "null" version at most per key |
| StoreEquivalence.SeenIff | internal/metadata/sqlite_store.go:826-838 | a version comes back from the JSON column unchanged if and only if all its metadata values are UTF-8 |
| StoreEquivalence.SeenStepList | internal/metadata/sqlite_store.go:304-467 | no version operation looks at metadata: each one commutes with what the column does |
| StoreEquivalence.NewestIsLast | internal/metadata/sqlite_store.go:419-422 | a version is that of the key's greatest ordinal if and only if it is the last of the key's list |
| StoreEquivalence.ShownAgree | internal/metadata/sqlite_store.go:312-322 | related stores show the same objects in a bucket |
| StoreEquivalence.ListBoth | internal/server/s3_api.go:886-925 | over related stores the two listing paths, given an issued position, answer with equal pages if and only if it is not a folder marker with keys under it |
| ObjectServer.WriteEffect | internal/server/s3_api.go:1090-1167 | a put, copy or completion, however it fails, touches one file at most, puts one version at most or, where a store fails halfway, drops the "null" version it was to replace, and does nothing over a locked "null" version |
| ObjectServer.RunKeepsLists | internal/server/s3_api.go:1090-1871 | in every run of handler calls, whatever both stores make of each change, each key keeps distinct version ids and one "null" version at most |
| ObjectApi.ValidateParts | internal/server/s3_api.go:1736-1760 | the loop reports the first complaint in the order of the specification, and the part numbers in order otherwise |
| ObjectApi.AssembleParts | internal/blob/store.go:388-411 | succeeds exactly when every part has a file, with their bytes in order |
| ObjectApi.CalculateMultipartETag | internal/server/s3_api.go:1794-1798 | the two loops compute the ETag specification that MultipartRuns relates to the acknowledged bodies |
| ObjectApi.Api.PutObject | internal/server/s3_api.go:1090-1167 | over the in-place stores on the heap the handler makes the put step of the machine, with each outcome of both stores, a file renamed into place and then reported as failed included; what that step stores and answers: ObjectLaws.PutStores, FailedPutSpares and PutReplies |
| ObjectApi.Api.CopyObject | internal/server/s3_api.go:1467-1557 | the same for the copy, read and written through the encryption streams; what that step means: ObjectLaws.CopyStores and CopyReplies |
| ObjectApi.Api.DeleteObject | internal/server/s3_api.go:1215-1271 | the same for the delete: by version id, by marker, or of all versions with those of their files that can be removed, and failing at the store; what each achieves: ObjectLaws.DeleteRemovesVersion, DeleteMarks, DeleteRemovesAll and DeleteReplies |
| ObjectApi.Api.UploadPart | internal/server/s3_api.go:1597-1642 | the same for a part; one refused for its digest or not recorded sweeps the staged files of the upload, as far as they can be removed |
| ObjectApi.Api.CompleteMultipartUpload | internal/server/s3_api.go:1708-1818 | the same for a completion: checks in order, then encrypt, promote or assemble, which may fail when the object is in place and parts are gone, then record and sweep |
| ObjectApi.Api.Handle | internal/server/s3_api.go:782-1871 | every handler, run over the heap slices, part tables and files, moves the server's contents by the step of the machine and answers as it does; ObjectLaws says of each step what it achieves |
| ObjectApi.Api.Serve | internal/server/s3_api.go:782-1871 | over any run of calls the heap ends with the contents, and the clients with the replies, of the machine's run, so what is proved of runs holds of the server |
| ObjectLaws.PutStores | internal/server/s3_api.go:1090-1167 | a put answered Ok makes the latest version of the key: size, ETag, checksums and time of the body sent, no marker, the user's metadata with the encryption mark exactly if asked for, id "null" exactly if the bucket is not Enabled; the file is the body or its encryption and reads back as the body; no other version, file, bucket or upload changes |
| ObjectLaws.PutReplies | internal/server/s3_api.go:1090-1167 | the exact condition of each answer to a put |
| ObjectLaws.FailedPutSpares | internal/server/s3_api.go:1090-1167 | a put that fails changes at most the version and file it was to make, records nothing but where the store fails, and nothing at all where it is denied or breaks off |
| ObjectLaws.RefusedPutLosesIff | internal/server/s3_api.go:1113-1136 | after a put refused for its digest whose file was removed, a version that could be read cannot be any more if and only if it is the unlocked "null" version of that key in a bucket not versioned now; it stays listed, and every other version reads as before |
| ObjectLaws.CopyStores | internal/server/s3_api.go:1467-1557 | a copy answered Ok makes the latest version of the destination: it reads back as the latest version of the source did before, with size, ETag and checksums of these bytes, the metadata of the source and encrypted exactly as asked for; the source and everything else is as it was |
| ObjectLaws.CopyReplies | internal/server/s3_api.go:1467-1557 | the exact condition of each answer to a copy but a failed record, which is what remains |
| ObjectLaws.DeleteReplies | internal/server/s3_api.go:1215-1271 | exactly when a delete is refused, denied, fails or is answered Ok |
| ObjectLaws.DeleteMarks | internal/server/s3_api.go:1245-1252 | without version id in an Enabled bucket: the latest version is a marker with the new id, every older version is still listed and found by id, all files stay and no listing shows the key; nothing changes where the store does not take the marker |
| ObjectLaws.DeleteRemovesVersion | internal/server/s3_api.go:1222-1244 | by version id: that id is not found any more, its file is gone unless it could not be removed, every other version and file is as it was |
| ObjectLaws.DeleteRemovesAll | internal/server/s3_api.go:1253-1271 | otherwise: the key has no version left and no file of one but those that could not be removed; other keys keep versions and files |
| ObjectLaws.RetentionReplies | internal/server/s3_api.go:1322-1353 | a retention is accepted if and only if it names a version that is no marker, has a mode of the two and a future date, and the store saves it |
| ObjectLaws.RetentionSets | internal/server/s3_api.go:1322-1353 | it changes mode and date in the metadata of the named version, or the latest, and nothing else |
| ObjectLaws.LegalHoldReplies | internal/server/s3_api.go:1361-1387 | the same condition for a legal hold that is on or off |
| ObjectLaws.LegalHoldSets | internal/server/s3_api.go:1361-1387 | it changes that one metadata entry of that one version, and nothing else |
| ObjectLaws.BucketMade | internal/server/s3_api.go:712-723 | a bucket is made exactly if there is none of the name and the store saves it, with versioning Suspended, and nothing else changes |
| ObjectLaws.VersioningSet | internal/server/s3_api.go:782-804 | versioning changes exactly for a status of the two, of a bucket that exists, if the store saves it; nothing else of the bucket or the server does |
| ObjectLaws.UploadOpened | internal/server/s3_api.go:1559-1583 | an upload is opened exactly for a new id where both stores succeed, and its record has the bucket, key, encryption and time of the call |
| ObjectLaws.PartSaved | internal/server/s3_api.go:1597-1642 | a part is accepted exactly with a number from 1 to 10000, for an open upload of that bucket and key, if both stores take it; then it is recorded with digest, size and checksums of its body and staged as sent, and nothing else changes |
| ObjectLaws.PartReplies | internal/server/s3_api.go:1597-1642 | the exact condition of each other answer to a part |
| ObjectLaws.FirstComplaint | internal/server/s3_api.go:1736-1760 | the answer to a part list is the complaint about the first part that is out of order, unknown, of another ETag or too small, and none exactly if no part is |
| ObjectLaws.CompleteReplies | internal/server/s3_api.go:1708-1818 | exactly when a completion finds no upload, no parts or too many; otherwise the first complaint about a part comes before every failure of bucket, lock or store; no version changes unless it succeeds or the record fails |
| ObjectLaws.AbortCloses | internal/server/s3_api.go:1860-1871 | an abort of an open upload drops the upload with its parts if the store can, and all its staged files but those that could not be removed; any other abort changes nothing |
| ObjectApi.Api.WriteMaybeEncrypted | internal/server/sse.go:94-113 | the file is the body or its encryption, the report is of the plaintext |
| ObjectApi.Api.ReadMaybeEncrypted | internal/server/sse.go:115-154 | yields the whole object as stored, and fails for an empty one |
| MultipartRuns.RunKeepsPart | internal/server/s3_api.go:1597-1642 | over every run, the staged file of a part is of the body that got there last and not swept since, its record of the body recorded last, and both of the acknowledged body if the last attempt to upload the part was acknowledged |
| MultipartRuns.OpenAsCreated | internal/server/s3_api.go:1559-1583 | over every run, an open upload has the bucket, key, encryption and time of the last call that created one with its id |
| MultipartRuns.AbortedIsClosed | internal/server/s3_api.go:1860-1871 | after an abort that dropped the upload, and any calls but one that creates the id anew, the upload is not there, and a part or completion is answered NoSuchUpload and changes nothing |
| MultipartRuns.UnpersistedPartStays | internal/metadata/store.go:703-715 | after a part whose record is kept but not persisted, the record of that unacknowledged body stays, what was acknowledged is unchanged, and no part of the upload is staged but those whose removal failed |
| MultipartRuns.CompleteIff | internal/server/s3_api.go:1708-1790 | a completion succeeds if and only if the upload is open, 1 to 10000 parts are listed in strictly ascending order, each is recorded with that ETag and staged, all but the last have 5 MiB, the bucket exists, no locked "null" version is in the way, and both stores accept the write |
| MultipartRuns.CompletedObject | internal/server/s3_api.go:1777-1818 | the object is the ascending concatenation of the staged bodies, with the ETag over exactly the digests of the recorded ones, encrypted and marked so exactly if the call that opened the upload asked for it; it is the latest version, put at the time of the call with the right version id, reads back as those bytes, the staged files are gone, the upload too unless its removal fails, and nothing else changed |
| MultipartRuns.CompletedAcknowledged | internal/server/s3_api.go:1777-1818 | if the last attempt to upload each listed part was acknowledged, all of this holds with the acknowledged bodies for both, so bytes, size, checksums and ETag are theirs |
| MultipartRuns.LatePartIsServed | internal/blob/store.go:356-363 | after any run: a part upload that fails after its rename, and then a completion with the ETag acknowledged before, serve the failed body under that ETag |
| MultipartRuns.PromotionIsAssembly | internal/blob/store.go:423-442 | promoting a single part reports the bytes, size, digest and checksums of its recorded body, which are those general assembly would report if that body is the one staged, but for the creation time |
| MultipartRuns.DecodedETagsAre | internal/server/s3_api.go:2113-2123 | quoted part ETags decode to the digests of the bodies, in order |
| ObjectLock.LockedSurvivesIff | internal/server/s3_api.go:1215-1271 | a locked version, metadata and file, outlives a put, copy, completion, delete or any other call that does not edit locks of its key, whatever the store makes of it, if and only if the call is not an unguarded delete: one without version id, carried out, in a bucket not versioned now, of a key whose latest version is not locked |
| ObjectLock.RunKeepsLocked | internal/server/s3_api.go:1090-1271 | over every run without an unguarded delete of its key, a version that is locked whenever a call looks keeps metadata and file |
| ObjectLock.EnabledKeepsLocked | internal/server/s3_api.go:1245-1252 | in a bucket that stays versioned no run loses a locked version |
| ObjectLock.RunStaysUnversioned | internal/server/s3_api.go:1098-1101 | a bucket never switched to Enabled has one "null" version per key at most |
| ObjectLock.SuspendedKeepsLocked | internal/server/s3_api.go:1504-1513 | in such a bucket a locked version stays the one version of its key, with its file, over every run |
| ObjectLock.SuspendingLosesLocked | internal/server/s3_api.go:1253-1268 | from any state with an unlocked "null" version, three calls that edit no lock lose every locked version of the key |
| ObjectLock.RetentionLocks | internal/server/object_lock.go:18-53 | an accepted retention locks the named version exactly until its date cut to the second if the UTC year of that date has four digits, and not at all otherwise; nothing else of the version changes |
| ObjectLock.LateRetentionNeverLocks | internal/server/object_lock.go:48-53 | the date 9999-12-31T23:59:59-01:00 is accepted and leaves a version without a legal hold unlocked at every time |
| ObjectLock.LegalHoldLocks | internal/server/object_lock.go:18-59 | a legal hold set on locks at every time; set off, exactly the retention remains |
| BlobCommit.StepKeepsInv | internal/blob/store.go:173-239 | every file-system step, Recover pass, directory made, removed or synced, and crash keeps the invariant tying committed paths, and entries a crash can bring back, to whole streams |
| BlobCommit.CommittedIsWhole | internal/blob/store.go:173-442 | in every interleaving a committed path holds the complete stream of one write that reached its rename, if files are synced or nothing crashes, even where a crash undoes renames and deletes |
| BlobCommit.OnlyOwnStepsChange | internal/blob/store.go:277-451 | only a delete of the path, a rename or promotion onto it, or the removal of its upload changes a committed path whose entry and directories are synced; without the syncs, a crash may too |
| BlobCommit.CommitMoves | internal/blob/store.go:213-223 | a rename or promotion moves the one entry, file and bytes with it, from the temporary or part path to the committed one |
| BlobCommit.RemovedIsGone | internal/blob/store.go:277-286 | a delete, the removal of a part, a Recover pass and a write that gives up remove the path they name and no other |
| BlobCommit.DeletedStaysGone | internal/blob/store.go:277-286 | over every run a deleted object stays away as long as no rename or promotion onto it and, while its absence is not synced, no crash comes |
| BlobCommit.CanReturnIff | internal/blob/store.go:277-286 | some crash brings an absent path back if and only if its entry is not sure to be as it is, it was once there, and the directories above it are or may return |
| BlobCommit.UntouchedStays | internal/blob/store.go:277-504 | over every run with none of those steps a committed path keeps its file and bytes, if its entry and directories are synced or nothing crashes |
| BlobCommit.HoldsIff | internal/blob/store.go:543-560 | a committed path keeps its bytes over every run without a step of its own, crashes included, if and only if its entry and those of all directories above it are synced |
| BlobCommit.AcknowledgedIff | internal/blob/store.go:213-223 | a write or promotion reported as done does if and only if the mode is Strict and the entries of all directories above it were synced |
| BlobCommit.FirstWriteCanBeLost | internal/blob/store.go:213-223 | in every mode and for every path a run from an empty root makes the directories, writes, reports success and loses the file in a crash |
| BlobCommit.AlwaysWholeIff | internal/blob/store.go:543-548 | committed paths hold whole writes in all runs if and only if the mode is not Fast |
| BlobCommit.SealedStays | internal/blob/store.go:221-239 | the file behind a committed path is never written again, so an open reader keeps its bytes |
| BlobCommit.RecoverRemovesNoObject | internal/blob/store.go:469-504 | over every run of Recover passes mixed with other calls, an object that none of them deletes, overwrites or promotes onto keeps its file, a whole write |
| BlobCommit.FastCanLoseACommit | internal/blob/store.go:205-239 | with Fast, a run that ends in a crash leaves an empty file no write made |
| BlobCommit.ReusedNameCommitsPartial | internal/blob/store.go:469-504 | were temp names reused after Recover, a half-written file could be committed |
| Ctr.AdvanceCtrIv | internal/server/sse.go:156-165 | the carry loop is big-endian addition modulo 256^len, and the carry stays within 64 bits |
| Ctr.AdvanceCompose | internal/server/sse.go:156-165 | two advances are the advance by their sum |
| Ctr.AdvanceValue | internal/server/sse.go:156-165 | the advanced block's value is the sum modulo 256^len |
| Ctr.CtrStream.XorKeyStream | internal/server/sse.go:106-107 | a stream continues the keystream where the last call stopped |
| Ctr.KeyByteShift | internal/server/sse.go:140-145 | the keystream of an advanced counter is the original one further on |
| Ctr.ApplyTwice | internal/server/sse.go:94-154 | the keystream applied twice at one position gives the text back |
| Sse.WriteEncrypted | internal/server/sse.go:94-113 | whatever pieces arrive, the file is the IV and the encryption of their concatenation, size and hashes those of the plaintext |
| Sse.ReadEncrypted | internal/server/sse.go:115-154 | align, advance, seek, limit and discard deliver each stored byte combined with the keystream at its own position, with the exact error cases |
| Sse.AlignedRead | internal/server/sse.go:139-153 | the read from the aligned block with the advanced counter is the range read |
| Sse.RangeRoundTrip | internal/server/sse.go:94-154 | every range of an encrypted object reads back as that slice of the plaintext; invalid ranges, and an empty object, fail |
| Sse.WriteThenRead | internal/server/sse.go:94-154 | the two code paths together return the slice |
| HeavyLimiter.New | internal/server/heavy.go:19-31 | a worker count above 0 and a queue length of at least 0 are kept; whatever the settings, a new limiter has a worker and satisfies the invariant |
| HeavyLimiter.StepKeepsInv | internal/server/heavy.go:33-74 | every step of any goroutine keeps the channel and depth counts exact |
| HeavyLimiter.SafeInEveryRun | internal/server/heavy.go:33-74 | in every interleaving at most `workers` hold and `workers + queue` occupy slots, no receive of a release or cancel blocks, a waiter can go on when nobody holds, and the depth never reaches its clamp |
| HeavyLimiter.QuiescentIsZero | internal/server/heavy.go:51-74 | with everybody out both channels are empty and the depth is zero |
| HeavyLimiter.CanMove | internal/server/heavy.go:33-55 | somebody inside can always take the next step towards leaving |
| HeavyLimiter.DrainsToZero | internal/server/heavy.go:33-74 | from every reachable state all can run to completion |
| HeavyLimiter.DepthWithinIff | internal/server/heavy.go:33-74 | in every interleaving the depth is within workers + queue if and only if those that freed a slot and still have to lower the depth are no more than the free slots and those that took one and still have to raise it |
| HeavyLimiter.DepthIsUnbounded | internal/server/heavy.go:33-74 | whatever the settings, for every n some run reads depth n |
| AwsChunked.AwsChunkedReader.Read | internal/server/aws_chunked.go:35-75 | whatever the buffer and the source reads, the bytes come off the front of what is left to deliver, and an error comes only where decoding ends |
| AwsChunked.AwsChunkedReader.ReadChunkSize | internal/server/aws_chunked.go:77-91 | the size line is parsed as the specification does, consuming exactly the line |
| AwsChunked.AwsChunkedReader.ReadCRLF | internal/server/aws_chunked.go:93-106 | accepts exactly a carriage return and line feed |
| AwsChunked.AwsChunkedReader.DiscardTrailers | internal/server/aws_chunked.go:108-121 | consumes exactly the lines up to the first blank one, and fails exactly when the stream ends inside a line |
| AwsChunked.ReadMany | internal/server/aws_chunked.go:35-75 | over any list of buffer sizes, delivered and undelivered bytes make up one decoding |
| AwsChunked.ReadAll | internal/server/aws_chunked.go:35-121 | reading to the end terminates with the decoding of the stream, for every buffer pattern |
| AwsChunked.DecodePrefix | internal/server/aws_chunked.go:35-121 | a stream of chunks with extensions and trailers decodes to its payload; every truncation decodes to a prefix of it |
| AwsChunked.BadSizeRefused | internal/server/aws_chunked.go:77-91 | after any chunks, a size line that announces no size ends the stream with an error, and the payload before is delivered |
| AwsChunked.BadChunkEndRefused | internal/server/aws_chunked.go:93-106 | so does a chunk not followed by carriage return and line feed, after its own payload |
| AwsChunked.ReadEncoded | internal/server/aws_chunked.go:35-121 | the reader returns exactly the payload and then the end |
| AwsChunked.CanonicalHeader | internal/server/aws_chunked.go:77-91 | a hexadecimal size with any extension announces itself |
| Text.HexRoundTrip | internal/server/s3_api.go:2113-2123 | hexadecimal encoding is undone by decoding |
| Text.AtoiItoa | internal/auth/sigv4.go:145-148 | a formatted count parses back |
| Text.SplitJoin | internal/auth/sigv4.go:253-271 | joining separator-free parts is undone by splitting |
| Text.EqualFoldAscii | internal/auth/sigv4.go:359-361 | on ASCII the folding comparison is equality up to the case of each letter |
| Text.TrimMeans | internal/server/s3_api.go:1751 | trimming leaves the part between the first and the last byte that is not cut off |
| SigV4.CanonicalQuery | internal/auth/sigv4.go:352-384 | whatever order the map is walked in, the result is the one encoding of the sorted signed parameters, all but those that fold to X-Amz-Signature |
| SigV4.CanonicalUnique | internal/auth/sigv4.go:352-376 | there is one sorted enumeration of the signed parameters |
| SigV4.CanonicalQueryIff | internal/auth/sigv4.go:352-384 | two queries have the same canonical form exactly when every signed parameter occurs equally often in both; a name that folds to X-Amz-Signature, also with U+017F for its s, is not signed |
| SigV4.AwsRoundTrip | internal/auth/sigv4.go:414-420 | percent encoding can be undone, and leaves no separator |
| SigV4.BuildCanonicalRequest | internal/auth/sigv4.go:280-315 | the loops build the specification request, or fail at the first unusable header, and leave the values of exactly the headers read folded in place; what that request gives away: SignatureCover.CanonicalIff |
| SigV4.HttpRequest.CanonicalHeaderValue | internal/auth/sigv4.go:317-340 | the value joins the folded values of the header, which stay folded in place; no other header changes |
| SigV4.FoldedTwice | internal/auth/sigv4.go:335-337 | folding white space twice is folding it once |
| SigV4.CanonicalTwice | internal/auth/sigv4.go:280-340 | a request whose headers were folded by a first pass has the same canonical form |
| SignatureCover.CanonicalIff | internal/auth/sigv4.go:280-384 | two requests have the same canonical form if and only if the signed header names agree, and method, path (an empty one is "/"), count of every signed parameter, folded value of every signed header, trimmed host and payload hash do |
| SignatureCover.HostForm | internal/auth/sigv4.go:280-315 | the canonical form signed by a URL, line by line: method, path, query, host, blank, header names, payload hash |
| SignatureCover.SignCovers | internal/auth/sigv4.go:395-401 | with an ideal digest a signature gives secret, day, region, service, terminal and signed text away |
| SigV4.ScopeRoundTrip | internal/auth/sigv4.go:253-271 | a credential parses back to its five fields exactly when none is empty or contains a slash |
| Credentials.CredentialStore.Bootstrap | internal/auth/credentials.go:65-86 | succeeds exactly on an empty store with given inputs, leaving one active credential |
| Credentials.CredentialStore.Create | internal/auth/credentials.go:89-110 | adds one active credential with that one secret, or changes nothing |
| Credentials.CredentialStore.Rotate | internal/auth/credentials.go:113-136 | the new secret counts at once, the replaced one until the overlap ends, any older one no longer |
| Credentials.CredentialStore.ResolveSecrets | internal/auth/credentials.go:172-190 | the secrets that may sign at that time, with existence and activity |
| Credentials.CredentialStore.VerifySecret | internal/auth/credentials.go:153-170 | accepts exactly secrets that hash like one that may sign |
| Presign.PresignRequest | internal/auth/presign.go:23-86 | the request's query is rewritten in place to the specification query, also on the failing paths; its headers are as they were |
| Presign.VerifyPresignedURL | internal/auth/sigv4.go:131-193 | the verdict of the specification, checks in the code's order; the headers it reads, if it gets that far, are left folded, all else as it was; what a positive verdict means: SignatureCover.VerifiedIff and SignatureGoodForIff |
| Presign.SkewExceeded | internal/auth/sigv4.go:195-202 | the saturating difference and its wrapping negation exceed the limit exactly if the request is later than allowed, or earlier by less than 2^63 nanoseconds |
| Presign.VerifyTwice | internal/auth/sigv4.go:131-193 | what a first check leaves in the headers does not change the verdict of a later one |
| Presign.SignedIff | internal/auth/presign.go:23-47 | presigning succeeds exactly for a method, key id and secret that are not blank, an expiry from 0 (read as 15 minutes) to 7 days, and a request with a host |
| Presign.SignatureNotSigned | internal/auth/sigv4.go:359-361 | adding the signature parameter does not change the canonical request |
| Presign.PresignedVerdict | internal/auth/sigv4.go:131-202 | the exact verdict on a presigned request at any time, case by case, for every signing time and skew limit |
| Presign.AcceptedIff | internal/auth/sigv4.go:131-202 | accepted exactly within the expiry and either within the skew limit or 2^63 nanoseconds or more before the signing time, if the year of that has four digits, by a verifier it is addressed to, with slash-free fields, while its secret may sign for an active credential |
| SignatureCover.VerifiedIff | internal/auth/sigv4.go:131-202 | any request at all, presigned by whomever, is accepted if and only if algorithm, stamp, skew, expiry, scope, signed headers and credential pass and some secret that may sign makes its signature of its own canonical form |
| SignatureCover.SignatureGoodForIff | internal/auth/sigv4.go:131-193 | a request that carries the signature of a presigned one is accepted if and only if the presigned one is and it agrees with it in method, path, host, payload hash and every parameter but the signature |
| SignatureCover.IdealUnforged | internal/auth/sigv4.go:386-401 | with an ideal digest nothing is forged, so that statement assumes nothing more |
| SignatureCover.PresignedSays | internal/auth/presign.go:23-86 | presigning sets exactly the six parameters, with the credential, stamp, whole seconds of expiry and defaults of its options |
| SignatureCover.OtherParameters | internal/auth/presign.go:56-86 | and leaves every other parameter as it was |
| Presign.LastSecondAccepted | internal/auth/sigv4.go:131-202 | a request stamped 99991231T235959Z is accepted, for an active credential, at every time 2^63 nanoseconds or more earlier, whatever the skew limit |
| Presign.AcceptedAcrossRotation | internal/auth/credentials.go:113-190 | across one rotation the old secret's URLs are accepted in time until the overlap ends, the new one's in time |
| Presign.SecondRotationDropsOldest | internal/auth/credentials.go:113-136 | a second rotation ends the first overlap |
| Lifecycle.CandidateIff | internal/lifecycle/worker.go:172-206 | a scan picks exactly the listed objects of usable buckets that some rule in force expires; an age beyond the longest duration counts like it |
| Lifecycle.FoundCounts | internal/lifecycle/worker.go:172-206 | a scan counts as failed the buckets whose configuration is unusable or whose listing is needed and fails, and as scanned the objects of the others that have a rule |
| Lifecycle.MatchesAnyRule | internal/lifecycle/rules.go:85-95 | true exactly when some rule's prefix and age fit |
| Lifecycle.Scan | internal/lifecycle/worker.go:172-206 | candidates, scanned and failed counts of the specification scan |
| Lifecycle.Worker.DeleteOne | internal/lifecycle/worker.go:308-328 | removed means records and every file went; missing means nothing was there; failed means nothing changed or the records went, reported or not, and some file may be left behind |
| Lifecycle.Worker.DeleteWithRetry | internal/lifecycle/worker.go:282-306 | for every failure pattern, a removal reported as failed included, the same holds of all attempts together, so removed means one attempt did it all; at most maxRetries + 1 attempts and the 64-bit doubled backoffs before them |
| Lifecycle.SleptIff | internal/lifecycle/worker.go:298-303 | all sleeps together are at most backoff * (2^n - 1), and exactly that if and only if the longest does not overflow |
| Lifecycle.Worker.Expire | internal/lifecycle/worker.go:209-240 | for every batch size an uncancelled run gives each candidate one outcome; counts match; removed keys have neither versions nor files; other keys and their files are untouched |
| Lifecycle.Worker.RunOnce | internal/lifecycle/worker.go:163-245 | the candidates are exactly the objects the store shows in usable buckets that some rule in force expires; every counter of the report; and what expiry promises of them |
| Lifecycle.AttemptAfter | internal/lifecycle/worker.go:285-293 | an attempt after failed ones can only have removed the key if they left everything as it was |

## Left out

- Web UI, command line, installer, configuration, metrics, tracing, import and backup: presentation and plumbing.
- XML, JSON, base64 and URL codecs, SQL drivers, persisters: library behaviour; of continuation tokens and the metadata column only what JSON makes of strings, and a request's query is the map its text parses to.
- Bucket deletion and bucket subresources in the handler machine; multi-object delete; object tagging; conditional headers: easy members.
- Header-based signatures (verifyHeaderAuth): the same canonical request and signature as the presigned path.
- Notifications and replication: best-effort network calls that keep no state.
- ObjectServer: each handler is one atomic step; storage paths are the object references they are computed from; files change only through the modelled calls; reading does not fail for reasons of its own, while every change to either store may; a header that fails validation is one case (Refused) for every kind of digest header; SSE headers are valid and a key is configured.
- MultipartRuns.CompletedObject: does not promise the acknowledged bodies where the last upload of a listed part failed, because the source does not keep that promise (LatePartIsServed).
- BlobCommit.AcknowledgedIff: does not promise that mode Strict alone keeps a write, because directories made for it are not synced (FirstWriteCanBeLost).
- MultipartRuns: a part record always carries its creation time, so the promotion fallback for a missing one does not arise.
- BlobCommit: a crash leaves each file or directory whose entry, or that of a directory above it, is not synced as it is, as it once was, or gone, and of each file any prefix at least as long as what was synced; the store's root directory itself is there; failing file-system calls are calls that give up or go no further.
- HeavyLimiter: channels and counter are steps of a machine over goroutines, because they are shared by concurrent callers.
- StoreEquivalence.Lockstep: version operations only; of the SQL columns only the metadata one is encoded, as the others bring back what times with four-digit years and text are; the two stores differ in listing a missing bucket and in what deleting a bucket cleans up, and a repeated non-"null" id is refused by SQL and appended in memory.
- Transactions: SQL transactions are the database's; the model covers clone-and-swap.
- Text: trimming, lower and upper case and fields are those of ASCII input.
- SignatureCover.SignatureGoodForIff: does not cover requests with line feeds in method, path, host or headers or with semicolons in header names, which HTTP does not carry; assumes that no other text has the digest or signature in question, as an ideal digest ensures (IdealUnforged).
- Presign.AcceptedIff: assumes that no other valid secret makes the same signature; PresignedVerdict assumes nothing of the kind.
- Lifecycle.Worker.DeleteWithRetry: does not model the overflow of maxRetries + 1, which takes 2^63 - 1 retries.
- Lifecycle: rule documents are taken as parsed.
- ObjectApi.Api.Serve: object sizes are below 2^63, as the source's integers are.
- ObjectApi.Api.CopyObject: source and destination streams run one after the other instead of through a pipe, with the same outcome because the destination appears by one rename.
