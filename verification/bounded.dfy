/** The bounded digest pipeline of concurrency/pipelines/digest/bounded.go:
    one walker emits regular-file paths, a fixed pool of digesters turns each
    path into a record, and `MD5All` aggregates the records.

    Channels become sequences. The done signal becomes an oracle saying at
    which emit point the walker sees it; the pool's interleaving becomes an
    arbitrary arrival order of the records. */
module Bounded {
  import opened Wrappers
  import opened DigestModel
  import opened Aggregator

  /** The paths a walk sent, and the error it returned (`None` for nil). */
  datatype WalkOutcome = WalkOutcome(paths: seq<string>, err: Option<Error>)

  /** `walkFiles`: the traversal's callback over `entries`. An entry with an
      error stops the walk with that error; a non-regular entry is skipped;
      a regular file is sent, unless the done signal wins the race at this
      emit point (`cancel == Some(0)`), which stops the walk with
      `WalkCanceled`. */
  function WalkFiles(entries: seq<Entry>, cancel: Option<nat>): (w: WalkOutcome)
    decreases |entries|
  {
    if |entries| == 0 then WalkOutcome([], None)
    else
      var e := entries[0];
      if e.err.Some? then WalkOutcome([], Some(Io(e.err.value)))
      else if !e.regular then WalkFiles(entries[1..], cancel)
      else if cancel == Some(0) then WalkOutcome([], Some(WalkCanceled))
      else
        var rest := WalkFiles(entries[1..], Later(cancel));
        WalkOutcome([e.path] + rest.paths, rest.err)
  }

  /** What the walk does, stated without the callback: it sends the regular
      files in order up to the first failing entry, cut short at the emit
      point where the done signal is seen; its error is `WalkCanceled` if it
      was cut short, else the first failing entry's error, else none. */
  function WalkSpec(entries: seq<Entry>, cancel: Option<nat>): WalkOutcome
  {
    var p := FirstFailure(entries);
    var reached := Reached(entries);
    if cancel.Some? && cancel.value < |reached| then
      WalkOutcome(reached[..cancel.value], Some(WalkCanceled))
    else
      WalkOutcome(reached, if p < |entries| then Some(Io(entries[p].err.value)) else None)
  }

  /** Unrolls `Reached` by one entry that does not fail. */
  lemma ReachedCons(entries: seq<Entry>)
    requires |entries| > 0 && entries[0].err.None?
    ensures FirstFailure(entries) == 1 + FirstFailure(entries[1..])
    ensures Reached(entries) ==
              (if entries[0].regular then [entries[0].path] else []) + Reached(entries[1..])
  {
    var p := FirstFailure(entries);
    assert entries[..p][1..] == entries[1..][..p - 1];
  }

  lemma {:induction false} WalkFilesMeaning(entries: seq<Entry>, cancel: Option<nat>)
    ensures WalkFiles(entries, cancel) == WalkSpec(entries, cancel)
    decreases |entries|
  {
    if |entries| > 0 && entries[0].err.None? {
      var e := entries[0];
      var tail := entries[1..];
      ReachedCons(entries);
      assert FirstFailure(entries) < |entries| ==>
               entries[FirstFailure(entries)] == tail[FirstFailure(tail)];
      if !e.regular {
        WalkFilesMeaning(tail, cancel);
      } else if cancel != Some(0) {
        WalkFilesMeaning(tail, Later(cancel));
        if cancel.Some? && cancel.value < |Reached(entries)| {
          assert Reached(entries)[..cancel.value]
              == [e.path] + Reached(tail)[..cancel.value - 1];
        }
      }
    }
  }

  /** No regular file is sent after the first failing entry, and no
      non-regular entry is ever sent: the sent paths are a prefix of the
      regular files reached. The walk fails exactly when an entry fails or
      the done signal is seen before the regular files run out. */
  lemma WalkFilesSendsPrefix(entries: seq<Entry>, cancel: Option<nat>)
    ensures WalkFiles(entries, cancel).paths <= Reached(entries)
    ensures WalkFiles(entries, cancel).err.None? <==>
              FirstFailure(entries) == |entries| &&
              (cancel.None? || cancel.value >= |Reached(entries)|)
    ensures WalkFiles(entries, cancel).err == Some(WalkCanceled) <==>
              cancel.Some? && cancel.value < |Reached(entries)|
  {
    WalkFilesMeaning(entries, cancel);
  }

  /** `digester`: reads each path it takes from the channel and sends one
      record carrying that path, the digest of the contents and the read
      error. `cancel == Some(k)` means the done signal wins the race for the
      `k`-th record's send: that path is taken but its record is dropped and
      the digester returns. */
  method Digester(read: FileReader, sum: Hasher, paths: seq<string>, cancel: Option<nat>)
      returns (records: seq<Record>, taken: nat)
    ensures taken <= |paths|
    ensures cancel.Some? && cancel.value < |paths| ==>
              taken == cancel.value + 1 && |records| == cancel.value
    ensures cancel.None? || cancel.value >= |paths| ==>
              taken == |paths| && |records| == |paths|
    ensures forall i :: 0 <= i < |records| ==>
              records[i].path == paths[i]
              && records[i].sum == sum(read(paths[i]).data)
              && records[i].err == read(paths[i]).err
    ensures records == Digests(read, sum, paths[..|records|])
  {
    records := [];
    taken := 0;
    while taken < |paths|
      invariant taken <= |paths|
      invariant |records| == taken
      invariant cancel.Some? ==> taken <= cancel.value
      invariant forall i :: 0 <= i < |records| ==> records[i] == RecordFor(read, sum, paths[i])
    {
      var path := paths[taken];
      var file := read(path);
      var record := Record(path, sum(file.data), file.err);
      taken := taken + 1;
      if cancel == Some(taken - 1) {
        return;
      }
      records := records + [record];
    }
  }

  /** `MD5All`, with the records arriving in the order `arrived`. The done
      signal is closed only when `MD5All` returns, so while it runs the walk
      never sees it. The result is never `WalkCanceled`. */
  function MD5All(entries: seq<Entry>, read: FileReader, sum: Hasher, arrived: seq<Record>)
    : (r: Result<map<string, Digest>, Error>)
    requires IsArrivalOf(arrived, Digests(read, sum, WalkFiles(entries, None).paths))
    ensures r != Failure(WalkCanceled)
  {
    WalkFilesSendsPrefix(entries, None);
    Collect(arrived, map[], WalkFiles(entries, None).err)
  }

  /** Each arriving record is the record of one reached regular file. */
  lemma ArrivedIsRecordOf(entries: seq<Entry>, read: FileReader, sum: Hasher,
                          arrived: seq<Record>, k: nat) returns (i: nat)
    requires IsArrivalOf(arrived, Digests(read, sum, WalkFiles(entries, None).paths))
    requires k < |arrived|
    ensures i < |Reached(entries)|
    ensures arrived[k] == RecordFor(read, sum, Reached(entries)[i])
  {
    WalkFilesMeaning(entries, None);
    var records := Digests(read, sum, Reached(entries));
    assert arrived[k] in multiset(records);
    i :| 0 <= i < |records| && records[i] == arrived[k];
  }

  /** Records of the same path agree, whatever order they arrive in. */
  lemma ArrivedPathDetermines(entries: seq<Entry>, read: FileReader, sum: Hasher,
                              arrived: seq<Record>)
    requires IsArrivalOf(arrived, Digests(read, sum, WalkFiles(entries, None).paths))
    ensures PathDetermines(arrived)
  {
    var records := Digests(read, sum, WalkFiles(entries, None).paths);
    assert PathDetermines(records);
    ArrivalKeepsPathDetermines(records, arrived);
  }

  /** The records of `paths` are all free of errors exactly when every path
      reads without error. */
  lemma DigestsFailIff(read: FileReader, sum: Hasher, paths: seq<string>)
    ensures FirstFailed(Digests(read, sum, paths)) == |paths| <==> ReadsSucceed(read, paths)
  {
    var records := Digests(read, sum, paths);
    if !ReadsSucceed(read, paths) {
      var i :| 0 <= i < |paths| && read(paths[i]).err.Some?;
      assert records[i].err.Some?;
    }
  }

  /** `MD5All` succeeds exactly when no entry of the walk fails and every
      regular file reads without error. */
  lemma {:induction false} MD5AllSucceedsIff(entries: seq<Entry>, read: FileReader, sum: Hasher,
                                             arrived: seq<Record>)
    requires IsArrivalOf(arrived, Digests(read, sum, WalkFiles(entries, None).paths))
    ensures MD5All(entries, read, sum, arrived).Success? <==>
              FirstFailure(entries) == |entries| && ReadsSucceed(read, Reached(entries))
  {
    WalkFilesMeaning(entries, None);
    var records := Digests(read, sum, Reached(entries));
    ArrivalFailsAlike(arrived, records);
    DigestsFailIff(read, sum, Reached(entries));
  }

  /** The records of `paths` carry exactly the paths of `paths`. */
  lemma PathsOfDigests(read: FileReader, sum: Hasher, paths: seq<string>)
    ensures PathsOf(Digests(read, sum, paths)) == (set p | p in paths)
  {
    var records := Digests(read, sum, paths);
    forall p | p in paths ensures p in PathsOf(records) {
      var i :| 0 <= i < |paths| && paths[i] == p;
      assert records[i] in records;
    }
  }

  /** Every sum in a successful aggregate is the digest of its path's contents. */
  lemma ArrivedSumsAreDigests(entries: seq<Entry>, read: FileReader, sum: Hasher,
                              arrived: seq<Record>)
    requires IsArrivalOf(arrived, Digests(read, sum, WalkFiles(entries, None).paths))
    requires Collect(arrived, map[], WalkFiles(entries, None).err).Success?
    ensures var m := Collect(arrived, map[], WalkFiles(entries, None).err).value;
            forall p :: p in m ==> m[p] == sum(read(p).data)
  {
    var w := WalkFiles(entries, None);
    var m := Collect(arrived, map[], w.err).value;
    ArrivedPathDetermines(entries, read, sum, arrived);
    forall p | p in m
      ensures m[p] == sum(read(p).data)
    {
      var k := CollectValue(arrived, w.err, p);
      var i := ArrivedIsRecordOf(entries, read, sum, arrived, k);
    }
  }

  /** Completeness: when no walk entry fails and every regular file reads
      without error, `MD5All` succeeds and maps every regular file's path,
      and nothing else, to the digest of its contents. */
  lemma {:induction false} MD5AllComplete(entries: seq<Entry>, read: FileReader, sum: Hasher,
                                          arrived: seq<Record>)
    requires FirstFailure(entries) == |entries|
    requires ReadsSucceed(read, RegularPaths(entries))
    requires IsArrivalOf(arrived, Digests(read, sum, WalkFiles(entries, None).paths))
    ensures MD5All(entries, read, sum, arrived).Success?
    ensures MD5All(entries, read, sum, arrived).value.Keys == (set p | p in RegularPaths(entries))
    ensures forall p :: p in MD5All(entries, read, sum, arrived).value ==>
              MD5All(entries, read, sum, arrived).value[p] == sum(read(p).data)
  {
    assert entries[..FirstFailure(entries)] == entries;
    MD5AllSucceedsIff(entries, read, sum, arrived);
    var w := WalkFiles(entries, None);
    var m := Collect(arrived, map[], w.err).value;
    assert MD5All(entries, read, sum, arrived) == Success(m);
    WalkFilesMeaning(entries, None);
    var reached := Reached(entries);
    assert w.paths == reached;
    var records := Digests(read, sum, reached);
    ArrivalFailsAlike(arrived, records);
    assert m.Keys == PathsOf(arrived);
    PathsOfDigests(read, sum, reached);
    ArrivedSumsAreDigests(entries, read, sum, arrived);
  }

  /** An item error wins: when some reached regular file fails to read,
      `MD5All` fails with the read error of one of them, whatever the walk
      reports and whatever the arrival order. */
  lemma {:induction false} MD5AllItemErrorWins(entries: seq<Entry>, read: FileReader, sum: Hasher,
                                               arrived: seq<Record>)
    requires IsArrivalOf(arrived, Digests(read, sum, WalkFiles(entries, None).paths))
    requires !ReadsSucceed(read, Reached(entries))
    ensures MD5All(entries, read, sum, arrived).Failure?
    ensures MD5All(entries, read, sum, arrived).error.Io?
    ensures exists i :: 0 <= i < |Reached(entries)| &&
              read(Reached(entries)[i]).err == Some(MD5All(entries, read, sum, arrived).error.cause)
  {
    WalkFilesMeaning(entries, None);
    var reached := Reached(entries);
    var records := Digests(read, sum, reached);
    ArrivalFailsAlike(arrived, records);
    var bad :| 0 <= bad < |reached| && read(reached[bad]).err.Some?;
    assert records[bad].err.Some?;
    var k := FirstFailed(arrived);
    var i := ArrivedIsRecordOf(entries, read, sum, arrived, k);
    assert read(reached[i]).err == arrived[k].err;
  }

  /** The walk's error is reported only after every record arrived without
      error: then `MD5All` fails with the first failing entry's error. */
  lemma {:induction false} MD5AllWalkErrorLast(entries: seq<Entry>, read: FileReader, sum: Hasher,
                                               arrived: seq<Record>)
    requires IsArrivalOf(arrived, Digests(read, sum, WalkFiles(entries, None).paths))
    requires ReadsSucceed(read, Reached(entries))
    requires FirstFailure(entries) < |entries|
    ensures MD5All(entries, read, sum, arrived)
            == Failure(Io(entries[FirstFailure(entries)].err.value))
  {
    WalkFilesMeaning(entries, None);
    var records := Digests(read, sum, Reached(entries));
    ArrivalFailsAlike(arrived, records);
  }

  /** An inaccessible root: the walk fails at its first entry and no path
      reaches a digester. */
  lemma RootWalkFails(entries: seq<Entry>)
    requires |entries| > 0 && entries[0].err.Some?
    ensures WalkFiles(entries, None) == WalkOutcome([], Some(Io(entries[0].err.value)))
  {
  }

  /** An inaccessible root: no record arrives, and the first entry's error
      is the result of `MD5All`. */
  lemma RootInaccessible(entries: seq<Entry>, read: FileReader, sum: Hasher,
                         arrived: seq<Record>)
    requires |entries| > 0 && entries[0].err.Some?
    requires IsArrivalOf(arrived, Digests(read, sum, WalkFiles(entries, None).paths))
    ensures arrived == []
    ensures MD5All(entries, read, sum, arrived) == Failure(Io(entries[0].err.value))
  {
    RootWalkFails(entries);
    assert |arrived| == |multiset(arrived)| == 0;
  }

  /** The arrival order changes neither whether `MD5All` succeeds nor the
      map it returns. */
  lemma MD5AllOrderIndependent(entries: seq<Entry>, read: FileReader, sum: Hasher,
                               a: seq<Record>, b: seq<Record>)
    requires IsArrivalOf(a, Digests(read, sum, WalkFiles(entries, None).paths))
    requires IsArrivalOf(b, Digests(read, sum, WalkFiles(entries, None).paths))
    ensures MD5All(entries, read, sum, a).Success? <==> MD5All(entries, read, sum, b).Success?
    ensures MD5All(entries, read, sum, a).Success? ==>
              MD5All(entries, read, sum, a) == MD5All(entries, read, sum, b)
  {
    ArrivedPathDetermines(entries, read, sum, a);
    CollectOrderIndependent(a, b, WalkFiles(entries, None).err);
  }
}
