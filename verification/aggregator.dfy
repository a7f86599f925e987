/** The aggregation loop at the end of both `MD5All` functions: it reads
    records in arrival order, returns the first record's error it meets,
    otherwise stores each record's sum under its path, and once the stream
    is drained reports the walk's error if the walk had one. */
module Aggregator {
  import opened Wrappers
  import opened DigestModel

  predicate RecordFails(r: Record)
  {
    r.err.Some?
  }

  /** Index of the first record carrying an error, or `|records|`. */
  function FirstFailed(records: seq<Record>): nat
  {
    FirstWhere(records, RecordFails)
  }

  /** The paths the records carry. */
  function PathsOf(records: seq<Record>): set<string>
  {
    set r | r in records :: r.path
  }

  /** No record after position `i` carries the same path as record `i`. */
  predicate IsLast(records: seq<Record>, i: nat)
    requires i < |records|
  {
    forall j :: i < j < |records| ==> records[j].path != records[i].path
  }

  lemma PathsOfCons(records: seq<Record>)
    requires |records| > 0
    ensures PathsOf(records) == {records[0].path} + PathsOf(records[1..])
  {
    assert forall r :: r in records <==> r == records[0] || r in records[1..];
  }

  /** How the last record for each path and the paths carried relate to
      those of the tail. */
  lemma IsLastCons(records: seq<Record>)
    requires |records| > 0
    ensures PathsOf(records) == {records[0].path} + PathsOf(records[1..])
    ensures forall i :: 0 < i < |records| && IsLast(records, i) ==>
              records[i] == records[1..][i - 1] && IsLast(records[1..], i - 1)
    ensures IsLast(records, 0) ==> records[0].path !in PathsOf(records[1..])
  {
    PathsOfCons(records);
  }

  /** The loop `for r := range c`, continued from the map `acc` built so far,
      followed by the read of the walk's error.
      - the first failing record decides the result, whatever comes later;
      - the walk's error is returned only when no record failed;
      - otherwise the map holds every path seen, each with the sum of the
        last record for it, and keeps `acc` for paths no record carries;
      - a map and an error are never returned together. */
  function Collect(records: seq<Record>, acc: map<string, Digest>, walkErr: Option<Error>)
    : (r: Result<map<string, Digest>, Error>)
    ensures FirstFailed(records) < |records| ==>
              r == Failure(Io(records[FirstFailed(records)].err.value))
    ensures FirstFailed(records) == |records| && walkErr.Some? ==>
              r == Failure(walkErr.value)
    ensures FirstFailed(records) == |records| && walkErr.None? ==>
              r.Success? && r.value.Keys == acc.Keys + PathsOf(records)
    ensures r.Success? ==>
              forall i :: 0 <= i < |records| && IsLast(records, i) ==>
                records[i].path in r.value && r.value[records[i].path] == records[i].sum
    ensures r.Success? ==>
              forall p :: p in acc && p !in PathsOf(records) ==>
                p in r.value && r.value[p] == acc[p]
    decreases |records|
  {
    if |records| == 0 then
      if walkErr.Some? then Failure(walkErr.value) else Success(acc)
    else if records[0].err.Some? then
      Failure(Io(records[0].err.value))
    else
      var rest := records[1..];
      var r := Collect(rest, acc[records[0].path := records[0].sum], walkErr);
      IsLastCons(records);
      r
  }

  /** Records for the same path are identical: true of worker output, where
      a record is a function of its path. */
  predicate PathDetermines(records: seq<Record>)
  {
    forall i, j :: 0 <= i < |records| && 0 <= j < |records| && records[i].path == records[j].path
      ==> records[i] == records[j]
  }

  lemma {:induction false} LastExists(records: seq<Record>, p: string) returns (i: nat)
    requires p in PathsOf(records)
    ensures i < |records| && records[i].path == p && IsLast(records, i)
    decreases |records|
  {
    var n := |records| - 1;
    if records[n].path == p {
      i := n;
    } else {
      var front := records[..n];
      assert PathsOf(records) == PathsOf(front) + {records[n].path} by {
        assert forall r :: r in records <==> r in front || r == records[n];
      }
      i := LastExists(front, p);
      assert records[i] == front[i];
    }
  }

  /** The same records in another arrival order fail or succeed alike. */
  lemma ArrivalFailsAlike(a: seq<Record>, b: seq<Record>)
    requires IsArrivalOf(a, b)
    ensures FirstFailed(a) < |a| <==> FirstFailed(b) < |b|
    ensures PathsOf(a) == PathsOf(b)
  {
    assert forall r :: r in a <==> r in b by {
      forall r ensures r in a <==> r in b {
        assert r in a <==> r in multiset(a);
        assert r in b <==> r in multiset(b);
      }
    }
    if FirstFailed(a) < |a| {
      assert a[FirstFailed(a)] in b;
    }
    if FirstFailed(b) < |b| {
      assert b[FirstFailed(b)] in a;
    }
  }

  /** On success, the sum stored for a path is that of any record for it,
      when records for the same path agree. */
  lemma CollectValue(records: seq<Record>, walkErr: Option<Error>, p: string)
      returns (i: nat)
    requires PathDetermines(records)
    requires Collect(records, map[], walkErr).Success?
    requires p in Collect(records, map[], walkErr).value
    ensures i < |records| && records[i].path == p
    ensures Collect(records, map[], walkErr).value[p] == records[i].sum
  {
    i := LastExists(records, p);
  }

  lemma ArrivalKeepsPathDetermines(a: seq<Record>, b: seq<Record>)
    requires IsArrivalOf(a, b)
    requires PathDetermines(a)
    ensures PathDetermines(b)
  {
    forall i, j | 0 <= i < |b| && 0 <= j < |b| && b[i].path == b[j].path
      ensures b[i] == b[j]
    {
      assert b[i] in multiset(a) && b[j] in multiset(a);
      var k :| 0 <= k < |a| && a[k] == b[i];
      var l :| 0 <= l < |a| && a[l] == b[j];
    }
  }

  /** Two successful aggregations of the same records in different orders
      build the same map. */
  lemma SameRecordsSameMap(a: seq<Record>, b: seq<Record>, walkErr: Option<Error>)
    requires IsArrivalOf(a, b)
    requires PathDetermines(a) && PathDetermines(b)
    requires Collect(a, map[], walkErr).Success? && Collect(b, map[], walkErr).Success?
    requires PathsOf(a) == PathsOf(b)
    ensures Collect(a, map[], walkErr).value == Collect(b, map[], walkErr).value
  {
    var ma, mb := Collect(a, map[], walkErr).value, Collect(b, map[], walkErr).value;
    assert ma.Keys == mb.Keys;
    forall p | p in ma
      ensures ma[p] == mb[p]
    {
      var i := CollectValue(a, walkErr, p);
      var j := CollectValue(b, walkErr, p);
      assert b[j] in multiset(a);
      var k :| 0 <= k < |a| && a[k] == b[j];
    }
  }

  /** The aggregate does not depend on the arrival order: whether it
      succeeds, and the map it builds when it does, are the same for every
      order in which workers deliver their records. Which error a failing
      run reports may differ: that one is the first to arrive. */
  lemma {:induction false} CollectOrderIndependent(a: seq<Record>, b: seq<Record>, walkErr: Option<Error>)
    requires IsArrivalOf(a, b)
    requires PathDetermines(a)
    ensures Collect(a, map[], walkErr).Success? <==> Collect(b, map[], walkErr).Success?
    ensures Collect(a, map[], walkErr).Success? ==>
              Collect(a, map[], walkErr) == Collect(b, map[], walkErr)
  {
    ArrivalFailsAlike(a, b);
    if Collect(a, map[], walkErr).Success? {
      ArrivalKeepsPathDetermines(a, b);
      SameRecordsSameMap(a, b, walkErr);
    }
  }
}
