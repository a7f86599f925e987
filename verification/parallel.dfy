/** The unbounded digest pipeline of concurrency/pipelines/digest/parallel.go:
    the walk's callback starts one digest task per regular file and checks
    the done signal after each start; `MD5All` aggregates the tasks' records
    with the same loop as the bounded pipeline.

    Tasks become the records they send. The done signal becomes an oracle
    saying after which regular file's task start the walk sees it. */
module Parallel {
  import opened Wrappers
  import opened DigestModel
  import opened Aggregator
  import Bounded

  /** The records of the tasks a walk started, and the error it returned. */
  datatype SumOutcome = SumOutcome(records: seq<Record>, err: Option<Error>)

  /** `sumFiles`: the traversal's callback over `entries`. An entry with an
      error stops the walk with that error; a non-regular entry is skipped;
      a regular file gets its task, and only then is the done signal
      checked: if it is seen (`cancel == Some(0)`) the walk stops with
      `WalkCanceled`, that file's task having been started all the same. */
  function SumFiles(entries: seq<Entry>, read: FileReader, sum: Hasher, cancel: Option<nat>)
    : (s: SumOutcome)
    decreases |entries|
  {
    if |entries| == 0 then SumOutcome([], None)
    else
      var e := entries[0];
      if e.err.Some? then SumOutcome([], Some(Io(e.err.value)))
      else if !e.regular then SumFiles(entries[1..], read, sum, cancel)
      else
        var task := RecordFor(read, sum, e.path);
        if cancel == Some(0) then SumOutcome([task], Some(WalkCanceled))
        else
          var rest := SumFiles(entries[1..], read, sum, Later(cancel));
          SumOutcome([task] + rest.records, rest.err)
  }

  /** What the walk does, stated without the callback: one task per regular
      file up to the first failing entry, cut short just after the task of
      the file where the done signal is seen; the error is `WalkCanceled`
      if it was cut short, else the first failing entry's error, else none. */
  function SumSpec(entries: seq<Entry>, read: FileReader, sum: Hasher, cancel: Option<nat>)
    : SumOutcome
  {
    var p := FirstFailure(entries);
    var reached := Reached(entries);
    if cancel.Some? && cancel.value < |reached| then
      SumOutcome(Digests(read, sum, reached[..cancel.value + 1]), Some(WalkCanceled))
    else
      SumOutcome(Digests(read, sum, reached),
                 if p < |entries| then Some(Io(entries[p].err.value)) else None)
  }

  /** One regular, non-failing entry whose task is not the cancelled one:
      the specification of the whole is its task followed by that of the rest. */
  lemma SumSpecCons(entries: seq<Entry>, read: FileReader, sum: Hasher, cancel: Option<nat>)
    requires |entries| > 0 && entries[0].err.None? && entries[0].regular
    requires cancel != Some(0)
    ensures var rest := SumSpec(entries[1..], read, sum, Later(cancel));
            SumSpec(entries, read, sum, cancel)
            == SumOutcome([RecordFor(read, sum, entries[0].path)] + rest.records, rest.err)
  {
    var e := entries[0];
    var tail := entries[1..];
    Bounded.ReachedCons(entries);
    assert FirstFailure(entries) < |entries| ==>
             entries[FirstFailure(entries)] == tail[FirstFailure(tail)];
    if cancel.Some? && cancel.value < |Reached(entries)| {
      assert Reached(entries)[..cancel.value + 1]
          == [e.path] + Reached(tail)[..cancel.value];
      DigestsCons(read, sum, e.path, Reached(tail)[..cancel.value]);
    } else {
      DigestsCons(read, sum, e.path, Reached(tail));
    }
  }

  /** A non-regular, non-failing entry changes nothing in the specification. */
  lemma SumSpecSkip(entries: seq<Entry>, read: FileReader, sum: Hasher, cancel: Option<nat>)
    requires |entries| > 0 && entries[0].err.None? && !entries[0].regular
    ensures SumSpec(entries, read, sum, cancel) == SumSpec(entries[1..], read, sum, cancel)
  {
    var tail := entries[1..];
    Bounded.ReachedCons(entries);
    assert Reached(entries) == Reached(tail);
    assert FirstFailure(entries) < |entries| <==> FirstFailure(tail) < |tail|;
    assert FirstFailure(entries) < |entries| ==>
             entries[FirstFailure(entries)] == tail[FirstFailure(tail)];
  }

  lemma {:induction false} SumFilesMeaning(entries: seq<Entry>, read: FileReader, sum: Hasher,
                                           cancel: Option<nat>)
    ensures SumFiles(entries, read, sum, cancel) == SumSpec(entries, read, sum, cancel)
    decreases |entries|
  {
    if |entries| > 0 && entries[0].err.None? {
      if !entries[0].regular {
        SumFilesMeaning(entries[1..], read, sum, cancel);
        SumSpecSkip(entries, read, sum, cancel);
      } else if cancel == Some(0) {
        Bounded.ReachedCons(entries);
        assert Reached(entries)[..1] == [entries[0].path];
      } else {
        SumFilesMeaning(entries[1..], read, sum, Later(cancel));
        SumSpecCons(entries, read, sum, cancel);
      }
    }
  }

  /** Exactly one task per regular file reached, each carrying its own
      path, the digest of its contents and its read error. The file at
      which the done signal is seen still has its task started: the walk
      checks the signal only after the spawn. */
  lemma OneTaskPerRegularFile(entries: seq<Entry>, read: FileReader, sum: Hasher,
                              cancel: Option<nat>)
    ensures var s := SumFiles(entries, read, sum, cancel);
            var reached := Reached(entries);
            && |s.records| == (if cancel.Some? && cancel.value < |reached|
                               then cancel.value + 1 else |reached|)
            && forall i :: 0 <= i < |s.records| ==>
                 s.records[i].path == reached[i]
                 && s.records[i].sum == sum(read(reached[i]).data)
                 && s.records[i].err == read(reached[i]).err
  {
    SumFilesMeaning(entries, read, sum, cancel);
  }

  /** Without cancellation the unbounded walk starts a task for exactly the
      paths the bounded walk sends, and returns the same error. */
  lemma {:induction false} SumFilesMatchesWalkFiles(entries: seq<Entry>, read: FileReader, sum: Hasher)
    ensures SumFiles(entries, read, sum, None)
            == SumOutcome(Digests(read, sum, Bounded.WalkFiles(entries, None).paths),
                          Bounded.WalkFiles(entries, None).err)
    decreases |entries|
  {
    if |entries| > 0 && entries[0].err.None? {
      SumFilesMatchesWalkFiles(entries[1..], read, sum);
      if entries[0].regular {
        DigestsCons(read, sum, entries[0].path, Bounded.WalkFiles(entries[1..], None).paths);
      }
    }
  }

  /** `MD5All`, with the tasks' records arriving in the order `arrived`. The
      done signal is closed only when `MD5All` returns, so while it runs the
      walk never sees it, and the result is never `WalkCanceled`. */
  function MD5All(entries: seq<Entry>, read: FileReader, sum: Hasher, arrived: seq<Record>)
    : (r: Result<map<string, Digest>, Error>)
    requires IsArrivalOf(arrived, SumFiles(entries, read, sum, None).records)
    ensures r != Failure(WalkCanceled)
  {
    SumFilesMatchesWalkFiles(entries, read, sum);
    Bounded.WalkFilesSendsPrefix(entries, None);
    Collect(arrived, map[], SumFiles(entries, read, sum, None).err)
  }

  /** The two pipelines agree: for every arrival order, the unbounded
      `MD5All` returns what the bounded one returns for that order, so every
      property proved of the bounded pipeline holds of this one. */
  lemma MD5AllMatchesBounded(entries: seq<Entry>, read: FileReader, sum: Hasher,
                             arrived: seq<Record>)
    requires IsArrivalOf(arrived, SumFiles(entries, read, sum, None).records)
    ensures IsArrivalOf(arrived, Digests(read, sum, Bounded.WalkFiles(entries, None).paths))
    ensures MD5All(entries, read, sum, arrived) == Bounded.MD5All(entries, read, sum, arrived)
  {
    SumFilesMatchesWalkFiles(entries, read, sum);
  }
}
