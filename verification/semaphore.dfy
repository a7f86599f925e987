/** The ticket semaphore of semaphore/semaphore.go: a buffered channel of
    capacity `tickets` whose buffer holds one empty struct per ticket taken.

    The model is single-caller and sequential. The source races each hand-off
    against a timer; here a hand-off that cannot complete now is exactly the
    timeout branch, so the state is just how many tickets sit in the buffer. */
module TicketSemaphore {

  /** The two fixed error values of the source. */
  datatype Error = ErrNoTickets | ErrIllegalRelease

  /** Outcome of one call: `Ok` is the source's `nil` error. */
  datatype Status = Ok | Err(error: Error)

  /** `capacity` is the channel's buffer size; `held` is the number of
      tickets currently in the buffer. */
  datatype Semaphore = Semaphore(capacity: nat, held: nat) {
    /** A channel buffer never holds more than its size. */
    predicate Valid() {
      held <= capacity
    }
  }

  /** The status a call returns together with the semaphore it leaves. */
  datatype Step = Step(status: Status, sem: Semaphore)

  /** `New`: an empty buffer of size `tickets`. Go's `make` panics on a
      negative size, so the ticket count is a natural number here. */
  function New(tickets: nat): (s: Semaphore)
    ensures s.Valid()
    ensures s.held == 0 && s.capacity == tickets
  {
    Semaphore(tickets, 0)
  }

  /** `Acquire`: push one ticket into the buffer, or time out with
      `ErrNoTickets` when the buffer is full. */
  function Acquire(s: Semaphore): (r: Step)
    ensures r.status == Ok <==> s.held < s.capacity
    ensures r.status == Ok ==> r.sem.capacity == s.capacity && r.sem.held == s.held + 1
    ensures r.status != Ok ==> r.status == Err(ErrNoTickets) && r.sem == s
    ensures s.Valid() ==> r.sem.Valid()
  {
    if s.held < s.capacity then Step(Ok, s.(held := s.held + 1))
    else Step(Err(ErrNoTickets), s)
  }

  /** `Release`: pull one ticket out of the buffer, or time out with
      `ErrIllegalRelease` when the buffer is empty. */
  function Release(s: Semaphore): (r: Step)
    ensures r.status == Ok <==> s.held > 0
    ensures r.status == Ok ==> r.sem.capacity == s.capacity && r.sem.held + 1 == s.held
    ensures r.status != Ok ==> r.status == Err(ErrIllegalRelease) && r.sem == s
    ensures s.Valid() ==> r.sem.Valid()
  {
    if s.held > 0 then Step(Ok, s.(held := s.held - 1))
    else Step(Err(ErrIllegalRelease), s)
  }

  /** A successful `Acquire` is undone by the `Release` that follows it. */
  lemma AcquireThenRelease(s: Semaphore)
    requires Acquire(s).status == Ok
    ensures Release(Acquire(s).sem) == Step(Ok, s)
  {
  }

  /** A successful `Release` is undone by the `Acquire` that follows it. */
  lemma ReleaseThenAcquire(s: Semaphore)
    requires s.Valid() && Release(s).status == Ok
    ensures Acquire(Release(s).sem) == Step(Ok, s)
  {
  }

  /** One call a client can make. */
  datatype Op = AcquireOp | ReleaseOp

  function Apply(s: Semaphore, op: Op): Step
  {
    match op
    case AcquireOp => Acquire(s)
    case ReleaseOp => Release(s)
  }

  /** The statuses a sequence of calls returns, and the final state. */
  datatype Trace = Trace(statuses: seq<Status>, last: Semaphore)

  function Run(s: Semaphore, ops: seq<Op>): Trace
    decreases |ops|
  {
    if |ops| == 0 then Trace([], s)
    else
      var step := Apply(s, ops[0]);
      var rest := Run(step.sem, ops[1..]);
      Trace([step.status] + rest.statuses, rest.last)
  }

  /** How many of the calls `op` in `ops` returned `Ok`. */
  function Succeeded(ops: seq<Op>, statuses: seq<Status>, op: Op): nat
    requires |ops| == |statuses|
    decreases |ops|
  {
    if |ops| == 0 then 0
    else (if ops[0] == op && statuses[0] == Ok then 1 else 0)
         + Succeeded(ops[1..], statuses[1..], op)
  }

  /** Ticket accounting over any run: every successful `Acquire` adds one
      ticket, every successful `Release` removes one, failed calls change
      nothing, and the buffer never overflows. */
  lemma {:induction false} RunBalance(s: Semaphore, ops: seq<Op>)
    requires s.Valid()
    ensures |Run(s, ops).statuses| == |ops|
    ensures Run(s, ops).last.Valid()
    ensures Run(s, ops).last.capacity == s.capacity
    ensures Run(s, ops).last.held + Succeeded(ops, Run(s, ops).statuses, ReleaseOp)
            == s.held + Succeeded(ops, Run(s, ops).statuses, AcquireOp)
    decreases |ops|
  {
    if |ops| > 0 {
      var step := Apply(s, ops[0]);
      RunBalance(step.sem, ops[1..]);
      var t := Run(s, ops);
      assert t.statuses[1..] == Run(step.sem, ops[1..]).statuses;
    }
  }

  /** Admission control: starting from `held` tickets, a run of `Acquire`
      calls with no `Release` in between succeeds exactly while the buffer
      has room, so at most `capacity - held` of them succeed. */
  lemma {:induction false} AcquiresWithoutRelease(s: Semaphore, ops: seq<Op>)
    requires s.Valid()
    requires forall i :: 0 <= i < |ops| ==> ops[i] == AcquireOp
    ensures |Run(s, ops).statuses| == |ops|
    ensures forall i :: 0 <= i < |ops| ==>
              (Run(s, ops).statuses[i] == Ok <==> s.held + i < s.capacity)
    ensures forall i :: 0 <= i < |ops| ==>
              (Run(s, ops).statuses[i] != Ok ==> Run(s, ops).statuses[i] == Err(ErrNoTickets))
    decreases |ops|
  {
    if |ops| > 0 {
      var step := Acquire(s);
      AcquiresWithoutRelease(step.sem, ops[1..]);
      var t := Run(s, ops);
      var rest := Run(step.sem, ops[1..]);
      assert t.statuses == [step.status] + rest.statuses;
      forall i | 0 < i < |ops|
        ensures (t.statuses[i] == Ok <==> s.held + i < s.capacity)
        ensures t.statuses[i] != Ok ==> t.statuses[i] == Err(ErrNoTickets)
      {
        assert t.statuses[i] == rest.statuses[i - 1];
        if step.status == Ok {
          assert step.sem.held + (i - 1) == s.held + i;
        } else {
          assert step.sem == s;
          assert s.held + (i - 1) >= s.capacity;
        }
      }
    }
  }

  /** The worked example of `main`: with one ticket, a first `Acquire`
      succeeds, a second fails with `ErrNoTickets`, and `Release` then
      succeeds and leaves the semaphore empty again. */
  lemma OneTicketExample()
    ensures Run(New(1), [AcquireOp, AcquireOp, ReleaseOp])
            == Trace([Ok, Err(ErrNoTickets), Ok], New(1))
  {
  }
}
