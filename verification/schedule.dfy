/**
 An independent description of what `_request_with_cooloff` does, and the
 theorem that the loop meets it: the run stops at the first attempt that is
 not retried (or at the last allowed one), ends with that attempt's verdict,
 and its trace alternates calls and waits of 1, 2, 4, ... seconds.
 */
module Schedule {
  import opened Http
  import opened Cooloff

  /** The trace of `calls` attempts whose first has index `first`: a call at
      every even position, and at odd position 2k + 1 the wait of
      2^(first + k) seconds that separates attempt first + k from the next. */
  function Schedule<P>(call: Call<P>, calls: nat, first: nat): seq<Event<P>> {
    if calls == 0 then []
    else seq(2 * calls - 1, j requires 0 <= j < 2 * calls - 1 =>
               if j % 2 == 0 then Issue(call) else Sleep(Pow2(first + j / 2)))
  }

  /** The waits 2^first, 2^(first + 1), ..., `count` of them. */
  function Backoffs(count: nat, first: nat): seq<nat> {
    seq<nat>(count, k requires 0 <= k < count => Pow2(first + k))
  }

  /** The index of the attempt the loop stops at, when it starts at attempt `i`:
      the first one from `i` on that is not retryable, or the last allowed one. */
  function StopIndex(network: nat -> Outcome, numAttempts: int, i: nat): (k: nat)
    requires i < numAttempts
    ensures i <= k < numAttempts
    ensures forall j :: i <= j < k ==> Retryable(network(j))
    ensures k == numAttempts - 1 || !Retryable(network(k))
    decreases numAttempts - i
  {
    if i == numAttempts - 1 || !Retryable(network(i)) then i
    else StopIndex(network, numAttempts, i + 1)
  }

  /** What a run of the helper must be: nothing at all without an allowed
      attempt; otherwise the calls and waits up to the stopping attempt, ending
      with what that attempt returned or raised. */
  function Expected<P>(req: Request<P>, network: nat -> Outcome, numAttempts: int): Run<P> {
    if numAttempts <= 0 then Run(FellThrough, [])
    else
      var k := StopIndex(network, numAttempts, 0);
      Run(Verdict(network(k)), Schedule(CallOf(req), k + 1, 0))
  }

  /** Peeling off the first attempt of a schedule of two or more. */
  lemma ScheduleUnfold<P>(call: Call<P>, calls: nat, first: nat)
    requires calls >= 1
    ensures Schedule(call, calls + 1, first)
         == [Issue(call), Sleep(Pow2(first))] + Schedule(call, calls, first + 1)
  {
    var lhs := Schedule(call, calls + 1, first);
    var rhs := [Issue(call), Sleep(Pow2(first))] + Schedule(call, calls, first + 1);
    assert |lhs| == |rhs|;
    forall j | 0 <= j < |lhs|
      ensures lhs[j] == rhs[j]
    {
      if j >= 2 {
        var rest := Schedule(call, calls, first + 1);
        assert rhs[j] == rest[j - 2];
        HalfShift(j);
      }
    }
  }

  lemma HalfShift(j: int)
    requires j >= 2
    ensures (j - 2) % 2 == j % 2
    ensures (j - 2) / 2 + 1 == j / 2
  {
  }

  /** The loop from attempt `i` (with the cooloff it has reached by then)
      follows the schedule up to the stopping attempt and ends with its verdict. */
  lemma {:induction false} AttemptsFollowSchedule<P>(req: Request<P>, network: nat -> Outcome,
                                                    numAttempts: int, i: nat)
    requires i < numAttempts
    ensures Attempts(req, network, numAttempts, i, Pow2(i))
         == Run(Verdict(network(StopIndex(network, numAttempts, i))),
                Schedule(CallOf(req), StopIndex(network, numAttempts, i) - i + 1, i))
    decreases numAttempts - i
  {
    var k := StopIndex(network, numAttempts, i);
    if i == numAttempts - 1 || !Retryable(network(i)) {
      AttemptsStop(req, network, numAttempts, i, Pow2(i));
      assert Schedule(CallOf(req), 1, i) == [Issue(CallOf(req))];
    } else {
      assert Pow2(i) * 2 == Pow2(i + 1);
      assert StopIndex(network, numAttempts, i + 1) == k;
      AttemptsRetry(req, network, numAttempts, i, Pow2(i));
      AttemptsFollowSchedule(req, network, numAttempts, i + 1);
      ScheduleUnfold(CallOf(req), k - i, i);
    }
  }

  /** The loop meets the independent description on every input. */
  lemma RequestLoopIsExpected<P>(req: Request<P>, network: nat -> Outcome, numAttempts: int)
    ensures RequestLoop(req, network, numAttempts) == Expected(req, network, numAttempts)
  {
    if numAttempts > 0 {
      AttemptsFollowSchedule(req, network, numAttempts, 0);
    }
  }

  /** A schedule of `calls` attempts makes exactly `calls` calls. */
  lemma {:induction false} ScheduleCallCount<P>(call: Call<P>, calls: nat, first: nat)
    ensures CallCount(Schedule(call, calls, first)) == calls
    decreases calls
  {
    if calls == 1 {
      assert Schedule(call, 1, first) == [Issue(call)];
    } else if calls > 1 {
      ScheduleUnfold(call, calls - 1, first);
      var rest := Schedule(call, calls - 1, first + 1);
      ScheduleCallCount(call, calls - 1, first + 1);
      CallCountAppend([Issue(call), Sleep(Pow2(first))], rest);
      SleepTraceOfRetry(call, Pow2(first));
    }
  }

  /** A schedule of `calls` attempts waits exactly `calls - 1` times, doubling
      from 2^first. */
  lemma {:induction false} ScheduleSleeps<P>(call: Call<P>, calls: nat, first: nat)
    requires calls >= 1
    ensures SleepTrace(Schedule(call, calls, first)) == Backoffs(calls - 1, first)
    decreases calls
  {
    if calls == 1 {
      assert Schedule(call, 1, first) == [Issue(call)];
    } else {
      ScheduleUnfold(call, calls - 1, first);
      var rest := Schedule(call, calls - 1, first + 1);
      ScheduleSleeps(call, calls - 1, first + 1);
      SleepTraceAppend([Issue(call), Sleep(Pow2(first))], rest);
      SleepTraceOfRetry(call, Pow2(first));
      BackoffsUnfold(calls - 2, first);
    }
  }

  lemma BackoffsUnfold(count: nat, first: nat)
    ensures Backoffs(count + 1, first) == [Pow2(first)] + Backoffs(count, first + 1)
  {
    var waits := Backoffs(count + 1, first);
    forall k | 1 <= k < count + 1
      ensures waits[k] == Backoffs(count, first + 1)[k - 1]
    {
      assert first + k == (first + 1) + (k - 1);
    }
  }

  /** The waits 1, 2, ..., 2^(count - 1) add up to 2^count - 1. */
  lemma {:induction false} BackoffsSum(count: nat)
    ensures Sum(Backoffs(count, 0)) == Pow2(count) - 1
  {
    if count > 0 {
      var s := Backoffs(count, 0);
      assert s[..count - 1] == Backoffs(count - 1, 0);
      BackoffsSum(count - 1);
    }
  }

  /** Two retryability patterns that agree on the allowed attempts stop at the
      same attempt. */
  lemma {:induction false} StopIndexByPattern(net1: nat -> Outcome, net2: nat -> Outcome,
                                              numAttempts: int, i: nat)
    requires i < numAttempts
    requires forall j :: 0 <= j < numAttempts ==> (Retryable(net1(j)) <==> Retryable(net2(j)))
    ensures StopIndex(net1, numAttempts, i) == StopIndex(net2, numAttempts, i)
    decreases numAttempts - i
  {
    if i != numAttempts - 1 && Retryable(net1(i)) {
      StopIndexByPattern(net1, net2, numAttempts, i + 1);
    }
  }

  /** The stopping attempt is the first non-retryable one, whenever there is one. */
  lemma StopIndexIsFirst(network: nat -> Outcome, numAttempts: int, j: nat)
    requires j < numAttempts
    requires forall i :: 0 <= i < j ==> Retryable(network(i))
    requires !Retryable(network(j))
    ensures StopIndex(network, numAttempts, 0) == j
  {
  }
}
