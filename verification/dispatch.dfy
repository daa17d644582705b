/**
 * The instruction dispatcher of `AbstractClusterManager`: broadcast of one
 * instruction to every member, fan-out of a member -> instruction map to the
 * backend, polling of the returned handles against a deadline, and logging
 * of the members that missed it.
 *
 * `Poll` and `Dispatch` are the specification: the outcome of one call as a
 * function of the handles the backend returned, the clock readings and the
 * deadline. The methods are the imperative code, proved to compute it; the
 * lemmas state what the outcome guarantees.
 */
module Dispatcher {
  import opened Cluster

  /** The argument of `submitInstructions`: member -> instruction, None standing for a Java null. */
  type Assignments = map<Member, Option<Instruction>>

  /** The backend's `submitInstruction(member, instruction)`: the handle it returns. */
  type Submit<T> = (Member, Instruction) -> Handle<T>

  /** The `ExecutionException` that `Future.get()` throws for a failed instruction. */
  datatype ExecutionException = ExecutionException(cause: string)

  /**
   * What one call of `submitInstructions` comes to: either it returns the
   * result map and logs the members in `timedOut`, or `get()` of a member in
   * `failed` throws and the call aborts (which of them is up to the
   * iteration order of the pending map).
   */
  datatype DispatchOutcome<T> =
    | Completed(results: map<Member, T>, timedOut: set<Member>)
    | Aborted(failed: set<Member>)

  // ---------------------------------------------------------------------
  // Broadcast and fan-out
  // ---------------------------------------------------------------------

  /** The assignment map `submitInstruction(instruction)` builds: every listed member gets the instruction. */
  function Broadcast(members: seq<Member>, instruction: Option<Instruction>): map<Member, Option<Instruction>>
  {
    map m | m in members :: instruction
  }

  /** The members whose instruction is not null: the only ones submitted. */
  function Targets(a: Assignments): set<Member>
  {
    set m | m in a && a[m].Some?
  }

  /** The `futures` map after the fan-out loop: one handle per target, from the backend. */
  function Submitted<T>(a: Assignments, submit: Submit<T>): (handles: map<Member, Handle<T>>)
    ensures handles.Keys == Targets(a)
    ensures forall m :: m in handles ==> m in a && a[m].Some? && handles[m] == submit(m, a[m].value)
  {
    map m | m in a && a[m].Some? :: submit(m, a[m].value)
  }

  // ---------------------------------------------------------------------
  // The deadline
  // ---------------------------------------------------------------------

  /** `end = System.currentTimeMillis() + timeout` as written: a Java `long` addition, which wraps. */
  function DeadlineAsWritten(start: int, timeout: int): (end: int)
    ensures IsLong(end)
    ensures (end - (start + timeout)) % 0x1_0000_0000_0000_0000 == 0
    ensures IsLong(start + timeout) ==> end == start + timeout
  {
    WrapLong(start + timeout)
  }

  /** The deadline `timeout` milliseconds after `start`, saturating at the largest `long`. */
  function Deadline(start: int, timeout: int): (end: int)
    requires 0 <= start && IsLong(start) && IsLong(timeout)
    ensures IsLong(end)
    ensures timeout >= 0 ==> start <= end
    ensures end <= start + timeout
    ensures IsLong(start + timeout) ==> end == start + timeout
    ensures start + timeout > LONG_MAX ==> end == LONG_MAX
  {
    if start + timeout > LONG_MAX then LONG_MAX else start + timeout
  }

  /** Without overflow the two deadlines agree. */
  lemma DeadlineAsWrittenAgrees(start: int, timeout: int)
    requires 0 <= start && IsLong(start) && IsLong(timeout)
    requires start + timeout <= LONG_MAX
    ensures DeadlineAsWritten(start, timeout) == Deadline(start, timeout)
  {
  }

  /** With a timeout near `Long.MAX_VALUE` the written addition wraps to a deadline before the start. */
  lemma DeadlineAsWrittenOverflows(start: int)
    requires 0 < start && IsLong(start)
    ensures DeadlineAsWritten(start, LONG_MAX) < start
    ensures Deadline(start, LONG_MAX) == LONG_MAX
  {
    assert DeadlineAsWritten(start, LONG_MAX) == start + LONG_MAX - 0x1_0000_0000_0000_0000;
  }

  // ---------------------------------------------------------------------
  // One pass over the pending handles, and the polling loop
  // ---------------------------------------------------------------------

  /** Pending members whose handle is done at `now` and whose `get()` throws. */
  function FailedAt<T>(pending: map<Member, Handle<T>>, now: int): set<Member>
  {
    set m | m in pending && IsDone(pending[m], now) && pending[m].outcome.Failed?
  }

  /** The values a pass moves into the result map: those of the handles done at `now`. */
  function CollectedAt<T>(pending: map<Member, Handle<T>>, now: int): map<Member, T>
  {
    map m | m in pending && IsDone(pending[m], now) && pending[m].outcome.Value? :: pending[m].outcome.value
  }

  /** The handles a pass leaves in `futures`: those not done at `now`. */
  function StillPending<T>(pending: map<Member, Handle<T>>, now: int): map<Member, Handle<T>>
  {
    map m | m in pending && !IsDone(pending[m], now) :: pending[m]
  }

  /**
   * The polling loop from the k-th clock reading on: stop when nothing is
   * pending or the reading has reached `end`; otherwise make one pass at
   * that reading, which aborts on a failed handle or moves every done
   * handle's value into the results.
   */
  function Poll<T>(pending: map<Member, Handle<T>>, results: map<Member, T>,
                   clock: nat -> int, k: nat, end: int): (o: DispatchOutcome<T>)
    requires Increasing(clock)
    ensures o.Completed? ==> o.timedOut <= pending.Keys && results.Keys <= o.results.Keys
    ensures o.Aborted? ==> o.failed != {} && o.failed <= pending.Keys
    decreases end - clock(k)
  {
    if |pending| == 0 || clock(k) >= end then
      Completed(results, pending.Keys)
    else if FailedAt(pending, clock(k)) != {} then
      Aborted(FailedAt(pending, clock(k)))
    else
      Poll(StillPending(pending, clock(k)), results + CollectedAt(pending, clock(k)), clock, k + 1, end)
  }

  /**
   * The whole call as written: fan out, read the clock once for the
   * wrapping deadline, then poll from the next reading.
   */
  function Dispatch<T>(a: Assignments, submit: Submit<T>, clock: nat -> int, timeout: int): (o: DispatchOutcome<T>)
    requires Increasing(clock) && 0 <= clock(0) && IsLong(clock(0)) && IsLong(timeout)
    ensures o.Completed? ==> o.timedOut <= Targets(a)
    ensures o.Aborted? ==> o.failed <= Targets(a)
    ensures IsLong(clock(0) + timeout) ==> o == Poll(Submitted(a, submit), map[], clock, 1, clock(0) + timeout)
  {
    Poll(Submitted(a, submit), map[], clock, 1, DeadlineAsWritten(clock(0), timeout))
  }

  /**
   * The call as evidently intended: the same, with the saturating deadline.
   * It differs from the call as written only where the addition overflows.
   */
  function CorrectedDispatch<T>(a: Assignments, submit: Submit<T>, clock: nat -> int, timeout: int): (o: DispatchOutcome<T>)
    requires Increasing(clock) && 0 <= clock(0) && IsLong(clock(0)) && IsLong(timeout)
    ensures clock(0) + timeout <= LONG_MAX ==> o == Dispatch(a, submit, clock, timeout)
  {
    Poll(Submitted(a, submit), map[], clock, 1, Deadline(clock(0), timeout))
  }

  /** A handle is done at some clock reading from the k-th on that is still before the deadline. */
  ghost predicate DoneBefore<T>(h: Handle<T>, clock: nat -> int, k: nat, end: int)
  {
    exists i: nat :: k <= i && clock(i) < end && IsDone(h, clock(i))
  }

  lemma DoneBeforeStep<T>(h: Handle<T>, clock: nat -> int, k: nat, end: int)
    requires !IsDone(h, clock(k))
    ensures DoneBefore(h, clock, k, end) <==> DoneBefore(h, clock, k + 1, end)
  {
    if DoneBefore(h, clock, k, end) {
      var i: nat :| k <= i && clock(i) < end && IsDone(h, clock(i));
      assert k + 1 <= i;
    }
    if DoneBefore(h, clock, k + 1, end) {
      var i: nat :| k + 1 <= i && clock(i) < end && IsDone(h, clock(i));
      assert k <= i;
    }
  }

  lemma DeadlinePassedNeverDone<T>(h: Handle<T>, clock: nat -> int, k: nat, end: int)
    requires Increasing(clock) && clock(k) >= end
    ensures !DoneBefore(h, clock, k, end)
  {
    forall i: nat | k <= i
      ensures clock(i) >= end
    {
      if k < i {
        assert clock(k) < clock(i);
      }
    }
  }

  /** A pass that meets no failure splits the pending handles into the collected and the still pending. */
  lemma PassSplitsPending<T>(pending: map<Member, Handle<T>>, now: int)
    requires FailedAt(pending, now) == {}
    ensures CollectedAt(pending, now).Keys !! StillPending(pending, now).Keys
    ensures CollectedAt(pending, now).Keys + StillPending(pending, now).Keys == pending.Keys
    ensures forall m :: m in CollectedAt(pending, now) ==>
      m in pending && IsDone(pending[m], now) && pending[m].outcome == Value(CollectedAt(pending, now)[m])
  {
    forall m | m in pending && IsDone(pending[m], now)
      ensures m in CollectedAt(pending, now)
    {
      assert m !in FailedAt(pending, now);
    }
  }

  /**
   * The loop aborts exactly when some pending handle fails and is done at a
   * reading before the deadline; every member named in the abort is such a one.
   */
  lemma {:induction false} PollAbortsIff<T>(pending: map<Member, Handle<T>>, results: map<Member, T>,
                                            clock: nat -> int, k: nat, end: int)
    requires Increasing(clock)
    ensures Poll(pending, results, clock, k, end).Aborted? <==>
      exists m :: m in pending && pending[m].outcome.Failed? && DoneBefore(pending[m], clock, k, end)
    ensures Poll(pending, results, clock, k, end).Aborted? ==>
      var failed := Poll(pending, results, clock, k, end).failed;
      failed != {} &&
      forall m :: m in failed ==>
        m in pending && pending[m].outcome.Failed? && DoneBefore(pending[m], clock, k, end)
    decreases end - clock(k)
  {
    var now := clock(k);
    if |pending| == 0 {
      assert pending == map[];
    } else if now >= end {
      forall m | m in pending
        ensures !DoneBefore(pending[m], clock, k, end)
      {
        DeadlinePassedNeverDone(pending[m], clock, k, end);
      }
    } else if FailedAt(pending, now) != {} {
      var m :| m in FailedAt(pending, now);
      assert k <= k && clock(k) < end && IsDone(pending[m], clock(k));
      forall m' | m' in FailedAt(pending, now)
        ensures DoneBefore(pending[m'], clock, k, end)
      {
        assert k <= k && clock(k) < end && IsDone(pending[m'], clock(k));
      }
    } else {
      var rest := StillPending(pending, now);
      PollAbortsIff(rest, results + CollectedAt(pending, now), clock, k + 1, end);
      forall m | m in pending && pending[m].outcome.Failed?
        ensures m in rest && rest[m] == pending[m]
        ensures DoneBefore(pending[m], clock, k, end) <==> DoneBefore(rest[m], clock, k + 1, end)
      {
        assert m !in FailedAt(pending, now);
        DoneBeforeStep(pending[m], clock, k, end);
      }
      forall m | m in rest
        ensures m in pending && rest[m] == pending[m]
        ensures DoneBefore(rest[m], clock, k + 1, end) ==> DoneBefore(pending[m], clock, k, end)
      {
        DoneBeforeStep(pending[m], clock, k, end);
      }
    }
  }

  /**
   * When the loop completes, results and timed-out members partition what
   * was there, and the results it started with are kept.
   */
  lemma {:induction false} PollPartitions<T>(pending: map<Member, Handle<T>>, results: map<Member, T>,
                                             clock: nat -> int, k: nat, end: int)
    requires Increasing(clock)
    requires pending.Keys !! results.Keys
    ensures var o := Poll(pending, results, clock, k, end);
      o.Completed? ==>
        && o.results.Keys !! o.timedOut
        && o.results.Keys + o.timedOut == results.Keys + pending.Keys
        && (forall m :: m in results ==> m in o.results && o.results[m] == results[m])
    decreases end - clock(k)
  {
    var now := clock(k);
    if |pending| == 0 || now >= end || FailedAt(pending, now) != {} {
    } else {
      var rest := StillPending(pending, now);
      var collected := CollectedAt(pending, now);
      var results' := results + collected;
      PassKeepsPartition(pending, results, now);
      PollPartitions(rest, results', clock, k + 1, end);
    }
  }

  /** One pass without failure moves members from pending to the results, losing none and keeping the old results. */
  lemma PassKeepsPartition<T>(pending: map<Member, Handle<T>>, results: map<Member, T>, now: int)
    requires pending.Keys !! results.Keys
    requires FailedAt(pending, now) == {}
    ensures var rest := StillPending(pending, now);
      var results' := results + CollectedAt(pending, now);
      && rest.Keys !! results'.Keys
      && results'.Keys + rest.Keys == results.Keys + pending.Keys
      && forall m :: m in results ==> m in results' && results'[m] == results[m]
  {
    PassSplitsPending(pending, now);
  }

  /**
   * When the loop completes, every result it adds is the value of that
   * member's own handle, done at a reading before the deadline.
   */
  lemma {:induction false} PollResultsFromHandles<T>(pending: map<Member, Handle<T>>, results: map<Member, T>,
                                                     clock: nat -> int, k: nat, end: int)
    requires Increasing(clock)
    requires pending.Keys !! results.Keys
    ensures var o := Poll(pending, results, clock, k, end);
      o.Completed? ==>
        forall m :: m in o.results && m !in results ==>
          m in pending && pending[m].outcome == Value(o.results[m]) && DoneBefore(pending[m], clock, k, end)
    decreases end - clock(k)
  {
    var now := clock(k);
    if |pending| == 0 || now >= end || FailedAt(pending, now) != {} {
    } else {
      var rest := StillPending(pending, now);
      var collected := CollectedAt(pending, now);
      PassSplitsPending(pending, now);
      PollResultsFromHandles(rest, results + collected, clock, k + 1, end);
      PollPartitions(rest, results + collected, clock, k + 1, end);
      var o := Poll(rest, results + collected, clock, k + 1, end);
      if o.Completed? {
        forall m | m in o.results && m !in results
          ensures m in pending && pending[m].outcome == Value(o.results[m]) && DoneBefore(pending[m], clock, k, end)
        {
          if m in collected {
            assert k <= k && clock(k) < end && IsDone(pending[m], clock(k));
          } else {
            DoneBeforeStep(pending[m], clock, k, end);
          }
        }
      }
    }
  }

  /**
   * When the loop completes, a pending member is timed out exactly when its
   * handle is done at no reading before the deadline.
   */
  lemma {:induction false} PollTimesOut<T>(pending: map<Member, Handle<T>>, results: map<Member, T>,
                                           clock: nat -> int, k: nat, end: int)
    requires Increasing(clock)
    requires pending.Keys !! results.Keys
    ensures var o := Poll(pending, results, clock, k, end);
      o.Completed? ==>
        forall m :: m in pending ==> (m in o.timedOut <==> !DoneBefore(pending[m], clock, k, end))
    decreases end - clock(k)
  {
    var now := clock(k);
    if |pending| == 0 {
    } else if now >= end {
      forall m | m in pending
        ensures !DoneBefore(pending[m], clock, k, end)
      {
        DeadlinePassedNeverDone(pending[m], clock, k, end);
      }
    } else if FailedAt(pending, now) != {} {
    } else {
      var rest := StillPending(pending, now);
      var collected := CollectedAt(pending, now);
      PassSplitsPending(pending, now);
      PollTimesOut(rest, results + collected, clock, k + 1, end);
      PollPartitions(rest, results + collected, clock, k + 1, end);
      var o := Poll(rest, results + collected, clock, k + 1, end);
      if o.Completed? {
        forall m | m in pending
          ensures m in o.timedOut <==> !DoneBefore(pending[m], clock, k, end)
        {
          if IsDone(pending[m], now) {
            assert m in collected;
            assert k <= k && clock(k) < end && IsDone(pending[m], clock(k));
          } else {
            assert m in rest;
            DoneBeforeStep(pending[m], clock, k, end);
          }
        }
      }
    }
  }

  // ---------------------------------------------------------------------
  // What a call of submitInstructions guarantees
  // ---------------------------------------------------------------------

  /**
   * On success the result map holds only requested members with a non-null
   * instruction, at most one entry each, and each value is exactly what
   * that member's own handle delivered, done before the deadline.
   */
  lemma ResultsComeFromOwnHandles<T>(a: Assignments, submit: Submit<T>, clock: nat -> int, timeout: int)
    requires Increasing(clock) && 0 <= clock(0) && IsLong(clock(0)) && IsLong(timeout)
    ensures var o := Dispatch(a, submit, clock, timeout);
      o.Completed? ==>
        && o.results.Keys <= Targets(a) <= a.Keys
        && |o.results| <= |a|
        && forall m :: m in o.results ==>
             a[m].Some? && submit(m, a[m].value).outcome == Value(o.results[m]) &&
             DoneBefore(submit(m, a[m].value), clock, 1, DeadlineAsWritten(clock(0), timeout))
  {
    var handles := Submitted(a, submit);
    PollPartitions(handles, map[], clock, 1, DeadlineAsWritten(clock(0), timeout));
    PollResultsFromHandles(handles, map[], clock, 1, DeadlineAsWritten(clock(0), timeout));
    var o := Dispatch(a, submit, clock, timeout);
    if o.Completed? {
      assert o.results.Keys <= a.Keys;
      SubsetCardinality(o.results.Keys, a.Keys);
    }
  }

  lemma SubsetCardinality<X>(s: set<X>, t: set<X>)
    requires s <= t
    ensures |s| <= |t|
  {
    assert t == s + (t - s);
  }

  /** A member assigned a null instruction is never submitted: it is neither in the results nor logged. */
  lemma NullAssignmentNeverReported<T>(a: Assignments, submit: Submit<T>, clock: nat -> int, timeout: int, m: Member)
    requires Increasing(clock) && 0 <= clock(0) && IsLong(clock(0)) && IsLong(timeout)
    requires m in a && a[m] == None
    ensures var o := Dispatch(a, submit, clock, timeout);
      (o.Completed? ==> m !in o.results && m !in o.timedOut) &&
      (o.Aborted? ==> m !in o.failed)
  {
    var handles := Submitted(a, submit);
    var end := DeadlineAsWritten(clock(0), timeout);
    PollPartitions(handles, map[], clock, 1, end);
    PollAbortsIff(handles, map[], clock, 1, end);
  }

  /**
   * On success every submitted member is in exactly one of the result map
   * and the timed-out (logged) set; it is logged exactly when its handle
   * is done at no clock reading before the deadline.
   */
  lemma SubmittedArePartitioned<T>(a: Assignments, submit: Submit<T>, clock: nat -> int, timeout: int)
    requires Increasing(clock) && 0 <= clock(0) && IsLong(clock(0)) && IsLong(timeout)
    ensures var o := Dispatch(a, submit, clock, timeout);
      o.Completed? ==>
        && o.results.Keys !! o.timedOut
        && o.results.Keys + o.timedOut == Targets(a)
        && forall m :: m in Targets(a) ==>
             (m in o.timedOut <==> !DoneBefore(submit(m, a[m].value), clock, 1, DeadlineAsWritten(clock(0), timeout)))
  {
    PollPartitions(Submitted(a, submit), map[], clock, 1, DeadlineAsWritten(clock(0), timeout));
    PollTimesOut(Submitted(a, submit), map[], clock, 1, DeadlineAsWritten(clock(0), timeout));
  }

  /**
   * The call fails with an execution error exactly when some submitted
   * instruction failed and its handle was seen done before the deadline.
   */
  lemma AbortsIffFailureSeen<T>(a: Assignments, submit: Submit<T>, clock: nat -> int, timeout: int)
    requires Increasing(clock) && 0 <= clock(0) && IsLong(clock(0)) && IsLong(timeout)
    ensures Dispatch(a, submit, clock, timeout).Aborted? <==>
      exists m :: m in Targets(a) && submit(m, a[m].value).outcome.Failed? &&
                  DoneBefore(submit(m, a[m].value), clock, 1, DeadlineAsWritten(clock(0), timeout))
  {
    var handles := Submitted(a, submit);
    PollAbortsIff(handles, map[], clock, 1, DeadlineAsWritten(clock(0), timeout));
    if Dispatch(a, submit, clock, timeout).Aborted? {
      var m :| m in handles && handles[m].outcome.Failed? &&
               DoneBefore(handles[m], clock, 1, DeadlineAsWritten(clock(0), timeout));
      assert m in Targets(a);
    }
  }

  /**
   * If every submitted instruction succeeds and is done at some reading
   * before the deadline, the call returns a result for every submitted
   * member and logs nobody.
   */
  lemma AllDoneBeforeDeadline<T>(a: Assignments, submit: Submit<T>, clock: nat -> int, timeout: int)
    requires Increasing(clock) && 0 <= clock(0) && IsLong(clock(0)) && IsLong(timeout)
    requires forall m :: m in Targets(a) ==>
      submit(m, a[m].value).outcome.Value? &&
      DoneBefore(submit(m, a[m].value), clock, 1, DeadlineAsWritten(clock(0), timeout))
    ensures var o := Dispatch(a, submit, clock, timeout);
      o.Completed? && o.timedOut == {} && o.results.Keys == Targets(a)
  {
    AllDoneBeforeEnd(a, submit, clock, DeadlineAsWritten(clock(0), timeout));
  }

  /** `AllDoneBeforeDeadline` for the polling loop with any deadline. */
  lemma AllDoneBeforeEnd<T>(a: Assignments, submit: Submit<T>, clock: nat -> int, end: int)
    requires Increasing(clock)
    requires forall m :: m in Targets(a) ==>
      submit(m, a[m].value).outcome.Value? && DoneBefore(submit(m, a[m].value), clock, 1, end)
    ensures var o := Poll(Submitted(a, submit), map[], clock, 1, end);
      o.Completed? && o.timedOut == {} && o.results.Keys == Targets(a)
  {
    var handles := Submitted(a, submit);
    PollAbortsIff(handles, map[], clock, 1, end);
    PollPartitions(handles, map[], clock, 1, end);
    PollTimesOut(handles, map[], clock, 1, end);
  }

  /**
   * A submitted member whose handle is never done before the deadline is
   * left out of the result and logged, unless another member's failure
   * aborts the call.
   */
  lemma SlowMemberIsLeftOut<T>(a: Assignments, submit: Submit<T>, clock: nat -> int, timeout: int, m: Member)
    requires Increasing(clock) && 0 <= clock(0) && IsLong(clock(0)) && IsLong(timeout)
    requires m in Targets(a)
    requires var h := submit(m, a[m].value);
      h.completesAt.None? || h.completesAt.value >= DeadlineAsWritten(clock(0), timeout)
    ensures var o := Dispatch(a, submit, clock, timeout);
      o.Completed? ==> m !in o.results && m in o.timedOut
  {
    var h := submit(m, a[m].value);
    var end := DeadlineAsWritten(clock(0), timeout);
    assert !DoneBefore(h, clock, 1, end);
    SubmittedArePartitioned(a, submit, clock, timeout);
  }

  /** With a timeout of zero or less nothing is polled: the result is empty and every submitted member is logged. */
  lemma NonPositiveTimeoutPollsNothing<T>(a: Assignments, submit: Submit<T>, clock: nat -> int, timeout: int)
    requires Increasing(clock) && 0 <= clock(0) && IsLong(clock(0)) && IsLong(timeout)
    requires timeout <= 0
    ensures Dispatch(a, submit, clock, timeout) == Completed(map[], Targets(a))
  {
    assert clock(0) < clock(1);
  }

  /**
   * As written, a timeout of `Long.MAX_VALUE` makes the deadline wrap below
   * the start: the loop never polls, so even handles already done when
   * polling would start are all left out and logged.
   */
  lemma OverflowingTimeoutLeavesEveryoneOut<T>(a: Assignments, submit: Submit<T>, clock: nat -> int)
    requires Increasing(clock) && 0 < clock(0) && IsLong(clock(0))
    ensures Dispatch(a, submit, clock, LONG_MAX) == Completed(map[], Targets(a))
  {
    DeadlineAsWrittenOverflows(clock(0));
    assert clock(0) < clock(1);
  }

  /** With the saturating deadline the same timeout waits: nothing is left out before the end of `long` time. */
  lemma SaturatedTimeoutWaits<T>(a: Assignments, submit: Submit<T>, clock: nat -> int)
    requires Increasing(clock) && 0 <= clock(0) && IsLong(clock(0))
    requires forall m :: m in Targets(a) ==>
      submit(m, a[m].value).outcome.Value? && DoneBefore(submit(m, a[m].value), clock, 1, LONG_MAX)
    ensures var o := CorrectedDispatch(a, submit, clock, LONG_MAX);
      o.Completed? && o.timedOut == {} && o.results.Keys == Targets(a)
  {
    assert Deadline(clock(0), LONG_MAX) == LONG_MAX;
    AllDoneBeforeEnd(a, submit, clock, LONG_MAX);
  }

  /**
   * The two calls disagree: when every instruction has already succeeded
   * by the first poll, the call as written returns nothing while the
   * corrected call returns every result.
   */
  lemma WrittenAndCorrectedDiverge<T>(a: Assignments, submit: Submit<T>, clock: nat -> int)
    requires Increasing(clock) && 0 < clock(0) && IsLong(clock(0)) && clock(1) < LONG_MAX
    requires Targets(a) != {}
    requires forall m :: m in Targets(a) ==>
      submit(m, a[m].value).outcome.Value? && IsDone(submit(m, a[m].value), clock(1))
    ensures Dispatch(a, submit, clock, LONG_MAX) == Completed(map[], Targets(a))
    ensures var o := CorrectedDispatch(a, submit, clock, LONG_MAX);
      o.Completed? && o.timedOut == {} && o.results.Keys == Targets(a)
  {
    OverflowingTimeoutLeavesEveryoneOut(a, submit, clock);
    forall m | m in Targets(a)
      ensures DoneBefore(submit(m, a[m].value), clock, 1, LONG_MAX)
    {
      assert 1 <= 1 && clock(1) < LONG_MAX && IsDone(submit(m, a[m].value), clock(1));
    }
    SaturatedTimeoutWaits(a, submit, clock);
  }

  /**
   * With the default instruction timeout of 120000 ms the addition does not
   * overflow for any start below `Long.MAX_VALUE - 120000`, so the call as
   * written is the intended one.
   */
  lemma DefaultTimeoutIsAsIntended<T>(a: Assignments, submit: Submit<T>, clock: nat -> int)
    requires Increasing(clock) && 0 <= clock(0) <= LONG_MAX - DEFAULT_INSTRUCTION_TIMEOUT
    ensures Dispatch(a, submit, clock, DEFAULT_INSTRUCTION_TIMEOUT)
            == CorrectedDispatch(a, submit, clock, DEFAULT_INSTRUCTION_TIMEOUT)
  {
  }

  // ---------------------------------------------------------------------
  // The imperative code
  // ---------------------------------------------------------------------

  ghost predicate Distinct<X>(s: seq<X>)
  {
    forall i, j :: 0 <= i < j < |s| ==> s[i] != s[j]
  }

  /**
   * What the caller of a dispatch observes for an outcome: the result map
   * and one log entry per timed-out member, or the exception of a failed
   * member (`culprit`) and no log entry.
   */
  ghost predicate Reports<T>(o: DispatchOutcome<T>, handles: map<Member, Handle<T>>,
                             r: Result<map<Member, T>, ExecutionException>, log: seq<Member>, culprit: Member)
  {
    match o
    case Completed(results, timedOut) =>
      r == Success(results) && Distinct(log) && forall m :: m in log <==> m in timedOut
    case Aborted(failed) =>
      r.Failure? && log == [] && culprit in failed && culprit in handles &&
      handles[culprit].outcome == Failed(r.error.cause)
  }

  /** The loop of `submitInstruction(instruction)` that assigns the instruction to every member. */
  method BroadcastAssignments(members: seq<Member>, instruction: Option<Instruction>) returns (a: Assignments)
    ensures a.Keys == set m | m in members
    ensures forall m :: m in a ==> a[m] == instruction
  {
    a := map[];
    for i := 0 to |members|
      invariant a.Keys == set m | m in members[..i]
      invariant forall m :: m in a ==> a[m] == instruction
    {
      assert members[..i + 1] == members[..i] + [members[i]];
      a := a[members[i] := instruction];
    }
    assert members[..|members|] == members;
  }

  /** The fan-out loop: submit every non-null assignment to the backend, keeping the handle per member. */
  method SubmitAll<T>(a: Assignments, submit: Submit<T>) returns (futures: map<Member, Handle<T>>)
    ensures futures.Keys == Targets(a)
    ensures forall m :: m in futures ==> futures[m] == submit(m, a[m].value)
  {
    futures := map[];
    var entries := a.Keys;
    while entries != {}
      invariant entries <= a.Keys
      invariant forall m :: m in futures <==> m in a && a[m].Some? && m !in entries
      invariant forall m :: m in futures ==> futures[m] == submit(m, a[m].value)
      decreases entries
    {
      var m :| m in entries;
      if a[m].Some? {
        futures := futures[m := submit(m, a[m].value)];
      }
      entries := entries - {m};
    }
  }

  /**
   * One pass of the inner iterator loop at clock reading `now`: every done
   * handle's value moves from `futures` into `results`, unless its `get()`
   * throws, which ends the call.
   */
  method PollPass<T>(futures: map<Member, Handle<T>>, results: map<Member, T>, now: int)
    returns (r: Result<(map<Member, Handle<T>>, map<Member, T>), ExecutionException>, ghost culprit: Member)
    requires futures.Keys !! results.Keys
    ensures FailedAt(futures, now) == {} ==>
      r == Success((StillPending(futures, now), results + CollectedAt(futures, now)))
    ensures FailedAt(futures, now) != {} ==>
      r.Failure? && culprit in FailedAt(futures, now) && futures[culprit].outcome == Failed(r.error.cause)
  {
    culprit := Member("");
    var pending := futures;
    var collected := results;
    var unvisited := futures.Keys;
    while unvisited != {}
      invariant unvisited <= futures.Keys
      invariant forall m :: m in futures && m !in unvisited ==> m !in FailedAt(futures, now)
      invariant forall m :: m in pending <==> m in futures && (m in unvisited || !IsDone(futures[m], now))
      invariant forall m :: m in pending ==> pending[m] == futures[m]
      invariant forall m :: m in collected <==>
        m in results || (m in futures && m !in unvisited && IsDone(futures[m], now))
      invariant forall m :: m in results ==> collected[m] == results[m]
      invariant forall m :: m in collected && m !in results ==> futures[m].outcome == Value(collected[m])
      decreases unvisited
    {
      var m :| m in unvisited;
      var h := pending[m];
      if IsDone(h, now) {
        match h.outcome
        case Failed(cause) =>
          assert m in FailedAt(futures, now);
          r, culprit := Failure(ExecutionException(cause)), m;
          return;
        case Value(v) =>
          collected := collected[m := v];
          pending := pending - {m};
      }
      unvisited := unvisited - {m};
    }
    assert FailedAt(futures, now) == {};
    assert pending == StillPending(futures, now);
    assert collected == results + CollectedAt(futures, now);
    r := Success((pending, collected));
  }

  /**
   * `submitInstructions(instructions)`: fan out, compute the deadline from
   * the first clock reading, poll until nothing is pending or a reading
   * reaches the deadline, then log each member still pending.
   */
  method SubmitInstructions<T>(a: Assignments, submit: Submit<T>, clock: nat -> int, timeout: int)
    returns (r: Result<map<Member, T>, ExecutionException>, ghost log: seq<Member>, ghost culprit: Member)
    requires Increasing(clock) && 0 <= clock(0) && IsLong(clock(0)) && IsLong(timeout)
    ensures var o := Dispatch(a, submit, clock, timeout);
      (r.Success? <==> o.Completed?) && (o.Completed? ==> r.value == o.results)
    ensures Reports(Dispatch(a, submit, clock, timeout), Submitted(a, submit), r, log, culprit)
  {
    ghost var handles := Submitted(a, submit);
    var futures := SubmitAll(a, submit);
    assert futures == handles;
    var end := DeadlineAsWritten(clock(0), timeout);
    var results: map<Member, T> := map[];
    var k := 1;
    culprit := Member("");
    while |futures| > 0 && clock(k) < end
      invariant k >= 1
      invariant futures.Keys !! results.Keys
      invariant forall m :: m in futures ==> m in handles && futures[m] == handles[m]
      invariant Poll(futures, results, clock, k, end) == Dispatch(a, submit, clock, timeout)
      decreases end - clock(k)
    {
      var pass;
      pass, culprit := PollPass(futures, results, clock(k));
      if pass.Failure? {
        r, log := Failure(pass.error), [];
        return;
      }
      futures, results := pass.value.0, pass.value.1;
      k := k + 1;
    }
    log := [];
    if |futures| > 0 {
      var unlogged := futures.Keys;
      while unlogged != {}
        invariant unlogged <= futures.Keys
        invariant Distinct(log)
        invariant forall m :: m in log <==> m in futures && m !in unlogged
        decreases unlogged
      {
        var m :| m in unlogged;
        log := log + [m];
        unlogged := unlogged - {m};
      }
    }
    r := Success(results);
  }

  /** `submitInstruction(instruction)`: assign the instruction to every listed member, then dispatch. */
  method SubmitInstruction<T>(members: seq<Member>, instruction: Option<Instruction>, submit: Submit<T>,
                              clock: nat -> int, timeout: int)
    returns (r: Result<map<Member, T>, ExecutionException>, ghost log: seq<Member>, ghost culprit: Member)
    requires Increasing(clock) && 0 <= clock(0) && IsLong(clock(0)) && IsLong(timeout)
    ensures var o := Dispatch(Broadcast(members, instruction), submit, clock, timeout);
      (r.Success? <==> o.Completed?) && (o.Completed? ==> r.value == o.results)
    ensures var a := Broadcast(members, instruction);
      Reports(Dispatch(a, submit, clock, timeout), Submitted(a, submit), r, log, culprit)
  {
    var a := BroadcastAssignments(members, instruction);
    assert a == Broadcast(members, instruction);
    r, log, culprit := SubmitInstructions(a, submit, clock, timeout);
  }

  /** A broadcast's results come only from listed members, each with the value of its own handle. */
  lemma BroadcastResultsWithinMembers<T>(members: seq<Member>, instruction: Instruction, submit: Submit<T>,
                                         clock: nat -> int, timeout: int)
    requires Increasing(clock) && 0 <= clock(0) && IsLong(clock(0)) && IsLong(timeout)
    ensures var o := Dispatch(Broadcast(members, Some(instruction)), submit, clock, timeout);
      o.Completed? ==>
        && o.results.Keys + o.timedOut == set m | m in members
        && forall m :: m in o.results ==> submit(m, instruction).outcome == Value(o.results[m])
  {
    var a := Broadcast(members, Some(instruction));
    assert Targets(a) == set m | m in members;
    SubmittedArePartitioned(a, submit, clock, timeout);
    ResultsComeFromOwnHandles(a, submit, clock, timeout);
  }

  /** Broadcasting a null instruction submits nothing and returns an empty result. */
  lemma NullBroadcastIsEmpty<T>(members: seq<Member>, submit: Submit<T>, clock: nat -> int, timeout: int)
    requires Increasing(clock) && 0 <= clock(0) && IsLong(clock(0)) && IsLong(timeout)
    ensures Dispatch(Broadcast(members, None), submit, clock, timeout) == Completed(map[], {})
  {
    var a := Broadcast(members, None);
    assert Targets(a) == {};
    assert |Submitted(a, submit)| == 0;
  }
}

/**
 * The two worked scenarios of the dispatcher: three members A, B and C and
 * a timeout of 50 ms, with the clock starting at 0 and read at least once
 * between 10 and 50 ms.
 */
module DispatchScenarios {
  import opened Cluster
  import opened Dispatcher

  const A := Member("A")
  const B := Member("B")
  const C := Member("C")
  const Work := Instruction("work")

  function ThreeMembers(): Assignments
  {
    map[A := Some(Work), B := Some(Work), C := Some(Work)]
  }

  /** A and B finish after 10 ms, C only after 200 ms; each returns its own id. */
  function SlowC(m: Member, i: Instruction): Handle<string>
  {
    Handle(Some(if m == C then 200 else 10), Value(m.id))
  }

  /** A and B finish after 10 ms; C fails after 10 ms. */
  function FailingC(m: Member, i: Instruction): Handle<string>
  {
    Handle(Some(10), if m == C then Failed("boom") else Value(m.id))
  }

  ghost predicate PolledInWindow(clock: nat -> int)
  {
    exists i: nat :: 1 <= i && 10 <= clock(i) < 50
  }

  /** The slow member is left out and logged; the other two are returned with their own values. */
  lemma SlowMemberScenario(clock: nat -> int)
    requires Increasing(clock) && clock(0) == 0 && PolledInWindow(clock)
    ensures Dispatch(ThreeMembers(), SlowC, clock, 50) == Completed(map[A := "A", B := "B"], {C})
  {
    var o := Dispatch(ThreeMembers(), SlowC, clock, 50);
    SlowScenarioCompletes(clock);
    SlowScenarioPartition(clock);
    SlowScenarioValues(clock);
    assert o.results == map[A := "A", B := "B"];
  }

  lemma SlowScenarioCompletes(clock: nat -> int)
    requires Increasing(clock) && clock(0) == 0
    ensures Dispatch(ThreeMembers(), SlowC, clock, 50).Completed?
  {
    AbortsIffFailureSeen(ThreeMembers(), SlowC, clock, 50);
  }

  lemma SlowScenarioPartition(clock: nat -> int)
    requires Increasing(clock) && clock(0) == 0 && PolledInWindow(clock)
    ensures var o := Dispatch(ThreeMembers(), SlowC, clock, 50);
      o.Completed? ==> o.timedOut == {C} && o.results.Keys == {A, B}
  {
    var a := ThreeMembers();
    var o := Dispatch(a, SlowC, clock, 50);
    assert DeadlineAsWritten(0, 50) == 50;
    assert Targets(a) == {A, B, C};
    var i: nat :| 1 <= i && 10 <= clock(i) < 50;
    assert DoneBefore(SlowC(A, Work), clock, 1, 50) by {
      assert 1 <= i && clock(i) < 50 && IsDone(SlowC(A, Work), clock(i));
    }
    assert DoneBefore(SlowC(B, Work), clock, 1, 50) by {
      assert 1 <= i && clock(i) < 50 && IsDone(SlowC(B, Work), clock(i));
    }
    assert !DoneBefore(SlowC(C, Work), clock, 1, 50);
    if o.Completed? {
      assert o.results.Keys !! o.timedOut && o.results.Keys + o.timedOut == {A, B, C}
        && C in o.timedOut && A !in o.timedOut && B !in o.timedOut by {
        SubmittedArePartitioned(a, SlowC, clock, 50);
      }
      SplitOfThree(o.results.Keys, o.timedOut, A, B, C);
    }
  }

  lemma SplitOfThree<X>(kept: set<X>, logged: set<X>, x: X, y: X, z: X)
    requires kept !! logged && kept + logged == {x, y, z}
    requires z in logged && x !in logged && y !in logged
    ensures logged == {z} && kept == {x, y}
  {
  }

  lemma SlowScenarioValues(clock: nat -> int)
    requires Increasing(clock) && clock(0) == 0
    ensures var o := Dispatch(ThreeMembers(), SlowC, clock, 50);
      o.Completed? ==> forall m :: m in o.results ==> o.results[m] == m.id
  {
    ResultsComeFromOwnHandles(ThreeMembers(), SlowC, clock, 50);
  }

  /** One failing member makes the whole call fail, with no result map. */
  lemma FailingMemberScenario(clock: nat -> int)
    requires Increasing(clock) && clock(0) == 0 && PolledInWindow(clock)
    ensures Dispatch(ThreeMembers(), FailingC, clock, 50) == Aborted({C})
  {
    var a := ThreeMembers();
    var handles := Submitted(a, FailingC);
    assert DeadlineAsWritten(0, 50) == 50;
    assert C in handles;
    var i: nat :| 1 <= i && 10 <= clock(i) < 50;
    assert DoneBefore(handles[C], clock, 1, 50) by {
      assert 1 <= i && clock(i) < 50 && IsDone(handles[C], clock(i));
    }
    PollAbortsIff(handles, map[], clock, 1, 50);
    var o := Dispatch(a, FailingC, clock, 50);
    assert o.failed <= {C};
  }
}
