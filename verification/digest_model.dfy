/** Values shared by the two digest pipelines (concurrency/pipelines/digest).

    The file system is abstract: a walk is the sequence of entries the
    directory traversal hands to its callback, reading a file is an opaque
    path-to-contents-or-error function, and the MD5 sum is an opaque function
    from contents to a 16-byte digest. */
module DigestModel {
  import opened Wrappers

  newtype byte = x: int | 0 <= x < 256

  /** `md5.Size`. */
  const DigestSize: nat := 16

  type Digest = d: seq<byte> | |d| == DigestSize
    witness [0, 0, 0, 0, 0, 0, 0, 0, 0, 0, 0, 0, 0, 0, 0, 0]

  /** A failure reported by the file system (a traversal or read error). */
  datatype IoError = IoError(reason: string)

  /** The errors a pipeline can return: the walk's own cancellation error,
      or a file-system failure passed through unchanged. */
  datatype Error = WalkCanceled | Io(cause: IoError)

  /** One call of the traversal's callback: the path, whether its mode is a
      regular file, and the error the traversal passes for it, if any. */
  datatype Entry = Entry(path: string, regular: bool, err: Option<IoError>)

  /** What reading a whole file yields: the contents and the read error. */
  datatype ReadResult = ReadResult(data: seq<byte>, err: Option<IoError>)

  type FileReader = string -> ReadResult
  type Hasher = seq<byte> -> Digest

  /** The `result` record: a path, the digest of what was read, the read error. */
  datatype Record = Record(path: string, sum: Digest, err: Option<IoError>)

  /** The record a worker produces for `path`. The digest is taken of
      whatever the read returned, even when the read failed. */
  function RecordFor(read: FileReader, sum: Hasher, path: string): Record
  {
    var file := read(path);
    Record(path, sum(file.data), file.err)
  }

  /** The records of `paths`, one per path, in order. */
  function Digests(read: FileReader, sum: Hasher, paths: seq<string>): (rs: seq<Record>)
    ensures |rs| == |paths|
    ensures forall i :: 0 <= i < |paths| ==> rs[i] == RecordFor(read, sum, paths[i])
    decreases |paths|
  {
    if |paths| == 0 then []
    else [RecordFor(read, sum, paths[0])] + Digests(read, sum, paths[1..])
  }

  lemma DigestsCons(read: FileReader, sum: Hasher, path: string, paths: seq<string>)
    ensures Digests(read, sum, [path] + paths)
            == [RecordFor(read, sum, path)] + Digests(read, sum, paths)
  {
    assert ([path] + paths)[1..] == paths;
  }

  /** Index of the first element of `s` for which `failed` holds, or `|s|`
      when there is none. */
  function FirstWhere<T>(s: seq<T>, failed: T -> bool): (i: nat)
    ensures i <= |s|
    ensures forall j :: 0 <= j < i ==> !failed(s[j])
    ensures i < |s| ==> failed(s[i])
    decreases |s|
  {
    if |s| == 0 || failed(s[0]) then 0
    else 1 + FirstWhere(s[1..], failed)
  }

  predicate EntryFails(e: Entry)
  {
    e.err.Some?
  }

  /** Index of the first entry the traversal reports an error for, or the
      number of entries when there is none. */
  function FirstFailure(entries: seq<Entry>): nat
  {
    FirstWhere(entries, EntryFails)
  }

  /** The paths of the regular-file entries, in traversal order. */
  function RegularPaths(entries: seq<Entry>): seq<string>
    decreases |entries|
  {
    if |entries| == 0 then []
    else (if entries[0].regular then [entries[0].path] else [])
         + RegularPaths(entries[1..])
  }

  /** The paths a walk reaches before its first failing entry. */
  function Reached(entries: seq<Entry>): seq<string>
  {
    RegularPaths(entries[..FirstFailure(entries)])
  }

  /** The cancellation oracle after one more regular file went by:
      `Some(k)` means the done signal is seen at the `k`-th regular file
      still to come, `None` that it is never seen. */
  function Later(cancel: Option<nat>): Option<nat>
    requires cancel != Some(0)
  {
    match cancel
    case None => None
    case Some(k) => Some(k - 1)
  }

  /** `arrived` is one possible order in which the workers' records reach
      the aggregator: the same records, each as often, in any order. */
  predicate IsArrivalOf(arrived: seq<Record>, records: seq<Record>)
  {
    multiset(arrived) == multiset(records)
  }

  /** Every path of `paths` is read without error. */
  predicate ReadsSucceed(read: FileReader, paths: seq<string>)
  {
    forall i :: 0 <= i < |paths| ==> read(paths[i]).err.None?
  }
}
