/** The metadata records shared by the stores (internal/metadata/model.go). */
module Metadata {
  import opened Bytes

  datatype Option<+T> = None | Some(value: T)

  /** The four additional checksums a stored object or part carries. */
  datatype Checksums = Checksums(sha256: Str, sha1: Str, crc32: Str, crc32c: Str)

  datatype ObjectKey = ObjectKey(bucket: Str, key: Str)

  /** The name of one object file: storage paths are computed from it. */
  datatype Ref = Ref(bucket: Str, key: Str, versionId: Str)

  /** Times are nanoseconds. */
  const SECOND := 1_000_000_000

  /** A time cut to the second. */
  function Floor(t: int): int {
    t - t % SECOND
  }

  /** The UTC years 0 to 9999, the ones a four-digit year can name. */
  const FIRST_TIME := -62167219200 * SECOND
  const END_TIME := 253402300800 * SECOND

  predicate Expressible(t: int) {
    FIRST_TIME <= t < END_TIME
  }

  /** Durations are 64-bit counts of nanoseconds. */
  const MIN_DURATION := -0x8000_0000_0000_0000
  const MAX_DURATION := 0x7fff_ffff_ffff_ffff

  type Duration = d: int | MIN_DURATION <= d <= MAX_DURATION

  /** Time.Sub: a difference out of range is cut to the nearest duration. */
  function Sub(t: int, u: int): Duration {
    if t - u < MIN_DURATION then MIN_DURATION
    else if t - u > MAX_DURATION then MAX_DURATION
    else t - u
  }

  /** A 64-bit integer wraps around. */
  function Wrap(x: int): (w: Duration)
    ensures MIN_DURATION <= x <= MAX_DURATION ==> w == x
  {
    (x - MIN_DURATION) % 0x1_0000_0000_0000_0000 + MIN_DURATION
  }

  datatype ObjectVersion = ObjectVersion(
    bucket: Str,
    key: Str,
    versionId: Str,
    size: int,
    etag: Str,
    sums: Checksums,
    storagePath: Str,
    metadata: map<Str, Str>,
    deleteMarker: bool,
    createdAt: int)

  /** The id of the one version an unversioned bucket keeps: "null". */
  const NULL_ID: Str := [110, 117, 108, 108]

  datatype Bucket = Bucket(name: Str, createdAt: int, region: Str, versioning: Str)

  datatype MultipartUpload = MultipartUpload(
    uploadId: Str,
    bucket: Str,
    key: Str,
    sseAlgorithm: Str,
    initiatedAt: int)

  datatype MultipartPart = MultipartPart(
    uploadId: Str,
    number: int,
    etag: Str,
    size: int,
    sums: Checksums,
    storagePath: Str,
    createdAt: int)

  datatype CredentialRecord = CredentialRecord(
    accessKeyId: Str,
    secretHash: Str,
    status: Str,
    createdAt: int,
    rotatedAt: int)
}
