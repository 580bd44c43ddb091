/**
 The promises of `_request_with_cooloff`, each stated about the loop itself
 and proved from its agreement with the schedule.
 */
module Properties {
  import opened Http
  import opened Cooloff
  import opened Schedule

  /** A run makes one call per attempt up to the stopping attempt, so never
      more than the budget, and none at all when the budget is not positive. */
  lemma CallsWithinBudget<P>(req: Request<P>, network: nat -> Outcome, numAttempts: int)
    ensures numAttempts <= 0 ==> RequestLoop(req, network, numAttempts) == Run(FellThrough, [])
    ensures numAttempts > 0 ==>
      CallCount(RequestLoop(req, network, numAttempts).events) == StopIndex(network, numAttempts, 0) + 1
    ensures CallCount(RequestLoop(req, network, numAttempts).events) <= if numAttempts <= 0 then 0 else numAttempts
  {
    RequestLoopIsExpected(req, network, numAttempts);
    if numAttempts > 0 {
      ScheduleCallCount(CallOf(req), StopIndex(network, numAttempts, 0) + 1, 0);
    }
  }

  /** The run of a loop that stops at attempt `j`: that attempt's verdict,
      j + 1 calls, and the waits 1, 2, ..., 2^(j - 1) between them. */
  lemma StopsAt<P>(req: Request<P>, network: nat -> Outcome, numAttempts: int, j: nat)
    requires j < numAttempts
    requires StopIndex(network, numAttempts, 0) == j
    ensures RequestLoop(req, network, numAttempts).finish == Verdict(network(j))
    ensures CallCount(RequestLoop(req, network, numAttempts).events) == j + 1
    ensures SleepTrace(RequestLoop(req, network, numAttempts).events) == Backoffs(j, 0)
  {
    RequestLoopIsExpected(req, network, numAttempts);
    ScheduleCallCount(CallOf(req), j + 1, 0);
    ScheduleSleeps(CallOf(req), j + 1, 0);
  }

  /** The first response that passes `raise_for_status` is returned as it is,
      after j + 1 calls, whatever budget is left, with no wait after it. */
  lemma FirstSuccessIsReturned<P>(req: Request<P>, network: nat -> Outcome, numAttempts: int, j: nat)
    requires j < numAttempts
    requires forall i :: 0 <= i < j ==> Retryable(network(i))
    requires network(j).Responded? && !RaisesForStatus(network(j).response.status)
    ensures RequestLoop(req, network, numAttempts).finish == Returned(network(j).response)
    ensures CallCount(RequestLoop(req, network, numAttempts).events) == j + 1
    ensures SleepTrace(RequestLoop(req, network, numAttempts).events) == Backoffs(j, 0)
  {
    StopIndexIsFirst(network, numAttempts, j);
    StopsAt(req, network, numAttempts, j);
  }

  /** A 404 is re-raised at once: no wait, no further call, however many
      attempts remain. */
  lemma NotFoundRaisedAtOnce<P>(req: Request<P>, network: nat -> Outcome, numAttempts: int, j: nat)
    requires j < numAttempts
    requires forall i :: 0 <= i < j ==> Retryable(network(i))
    requires network(j).Responded? && network(j).response.status == 404
    ensures RequestLoop(req, network, numAttempts).finish == Raised(HttpError(404))
    ensures CallCount(RequestLoop(req, network, numAttempts).events) == j + 1
    ensures SleepTrace(RequestLoop(req, network, numAttempts).events) == Backoffs(j, 0)
  {
    StopIndexIsFirst(network, numAttempts, j);
    StopsAt(req, network, numAttempts, j);
  }

  /** The k-th wait (counting from 0) lasts exactly 2^k seconds. */
  lemma BackoffDoubles<P>(req: Request<P>, network: nat -> Outcome, numAttempts: int)
    ensures var waits := SleepTrace(RequestLoop(req, network, numAttempts).events);
            forall k :: 0 <= k < |waits| ==> waits[k] == Pow2(k)
  {
    if numAttempts > 0 {
      StopsAt(req, network, numAttempts, StopIndex(network, numAttempts, 0));
    } else {
      CallsWithinBudget(req, network, numAttempts);
    }
  }

  /** The trace alternates calls and waits, starts and ends with a call, and
      every call is the request's own GET or POST: no wait ever follows the
      last call. */
  lemma CallsAndWaitsAlternate<P>(req: Request<P>, network: nat -> Outcome, numAttempts: int)
    requires numAttempts > 0
    ensures var events := RequestLoop(req, network, numAttempts).events;
            && |events| % 2 == 1
            && events[|events| - 1] == Issue(CallOf(req))
            && (forall j :: 0 <= j < |events| ==> (events[j].Issue? <==> j % 2 == 0))
            && (forall j :: 0 <= j < |events| && events[j].Issue? ==> events[j].call == CallOf(req))
  {
    RequestLoopIsExpected(req, network, numAttempts);
  }

  /** When every allowed attempt fails in a retryable way, all of them are
      made, the loop waits between each pair, and the exception raised is the
      last attempt's own. */
  lemma ExhaustionRaisesLastFailure<P>(req: Request<P>, network: nat -> Outcome, numAttempts: int)
    requires numAttempts > 0
    requires forall i :: 0 <= i < numAttempts ==> Retryable(network(i))
    ensures RequestLoop(req, network, numAttempts).finish == Verdict(network(numAttempts - 1))
    ensures network(numAttempts - 1).ConnectionFailed? ==>
      RequestLoop(req, network, numAttempts).finish == Raised(ConnectionError)
    ensures network(numAttempts - 1).Responded? ==>
      RequestLoop(req, network, numAttempts).finish == Raised(HttpError(network(numAttempts - 1).response.status))
    ensures CallCount(RequestLoop(req, network, numAttempts).events) == numAttempts
    ensures SleepTrace(RequestLoop(req, network, numAttempts).events) == Backoffs(numAttempts - 1, 0)
  {
    StopsAt(req, network, numAttempts, numAttempts - 1);
  }

  /** Connection errors and non-404 HTTP errors share one schedule: two
      networks that fail retryably at the same attempts produce the same trace
      of calls and waits, whatever the kinds of their failures. */
  lemma WaitsIgnoreFailureKind<P>(req: Request<P>, net1: nat -> Outcome, net2: nat -> Outcome, numAttempts: int)
    requires forall i :: 0 <= i < numAttempts ==> (Retryable(net1(i)) <==> Retryable(net2(i)))
    ensures RequestLoop(req, net1, numAttempts).events == RequestLoop(req, net2, numAttempts).events
  {
    RequestLoopIsExpected(req, net1, numAttempts);
    RequestLoopIsExpected(req, net2, numAttempts);
    if numAttempts > 0 {
      StopIndexByPattern(net1, net2, numAttempts, 0);
    }
  }

  /** A run of c calls waits c - 1 times, 2^(c - 1) - 1 seconds in all. */
  lemma TotalWait<P>(req: Request<P>, network: nat -> Outcome, numAttempts: int)
    ensures var run := RequestLoop(req, network, numAttempts);
            var c := CallCount(run.events);
            c >= 1 ==> |SleepTrace(run.events)| == c - 1 && Sum(SleepTrace(run.events)) == Pow2(c - 1) - 1
  {
    if numAttempts > 0 {
      var j := StopIndex(network, numAttempts, 0);
      StopsAt(req, network, numAttempts, j);
      BackoffsSum(j);
    } else {
      CallsWithinBudget(req, network, numAttempts);
    }
  }
}
