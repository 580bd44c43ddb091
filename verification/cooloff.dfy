/**
 The retry loop of `_request_with_cooloff`: up to `numAttempts` calls, a
 `cooloff` wait that starts at one second and doubles after every wait, an
 immediate re-raise on 404 and on the final attempt.

 The network is an oracle from the attempt index to that attempt's outcome;
 sleeping is recorded as an event of the run's trace, not as elapsed time.
 */
module Cooloff {
  import opened Http

  /** An observable step of a run: one network call, or one wait. */
  datatype Event<P> = Issue(call: Call<P>) | Sleep(seconds: nat)

  /** How a run ended, and everything it did on the way, in order. */
  datatype Run<P> = Run(finish: Finish, events: seq<Event<P>>)

  function Pow2(k: nat): (r: nat)
    ensures r >= 1
  {
    if k == 0 then 1 else 2 * Pow2(k - 1)
  }

  /** The number of network calls in a trace. */
  function CallCount<P>(events: seq<Event<P>>): nat {
    if events == [] then 0
    else (if events[0].Issue? then 1 else 0) + CallCount(events[1..])
  }

  /** The waits of a trace, in order, in seconds. */
  function SleepTrace<P>(events: seq<Event<P>>): seq<nat> {
    if events == [] then []
    else (if events[0].Sleep? then [events[0].seconds] else []) + SleepTrace(events[1..])
  }

  function Sum(s: seq<nat>): nat {
    if s == [] then 0 else Sum(s[..|s| - 1]) + s[|s| - 1]
  }

  /** The loop from attempt `callCount` on, with `cooloff` the wait the next
      retry would use. Every attempt issues exactly one call; a retryable
      failure with attempts left sleeps `cooloff`, doubles it and goes on; every
      other outcome ends the run with what that attempt returned or raised.
      Running off the end of the range (only possible when no attempt is
      allowed at all) falls through and returns None. */
  function Attempts<P>(req: Request<P>, network: nat -> Outcome, numAttempts: int,
                       callCount: nat, cooloff: nat): (run: Run<P>)
    ensures run.finish.FellThrough? <==> callCount >= numAttempts
    ensures run.finish.FellThrough? ==> run.events == []
    ensures !run.finish.FellThrough? ==> 1 <= CallCount(run.events) <= numAttempts - callCount
    decreases numAttempts - callCount
  {
    if callCount >= numAttempts then Run(FellThrough, [])
    else
      var issue := Issue(CallOf(req));
      match network(callCount)
      case Responded(resp) =>
        if !RaisesForStatus(resp.status) then
          Run(Returned(resp), [issue])
        else if resp.status == 404 then
          Run(Raised(HttpError(resp.status)), [issue])
        else if callCount != numAttempts - 1 then
          Retry(req, network, numAttempts, callCount, cooloff)
        else
          Run(Raised(HttpError(resp.status)), [issue])
      case ConnectionFailed =>
        if callCount != numAttempts - 1 then
          Retry(req, network, numAttempts, callCount, cooloff)
        else
          Run(Raised(ConnectionError), [issue])
      case OtherException =>
        Run(Raised(OtherError), [issue])
  }

  /** The shared tail of both `except` branches: the failed call, the wait,
      then the rest of the loop with the doubled cooloff. */
  function Retry<P>(req: Request<P>, network: nat -> Outcome, numAttempts: int,
                    callCount: nat, cooloff: nat): (run: Run<P>)
    requires callCount < numAttempts - 1
    ensures !run.finish.FellThrough?
    ensures 2 <= CallCount(run.events) <= numAttempts - callCount
    decreases numAttempts - callCount, 0
  {
    var rest := Attempts(req, network, numAttempts, callCount + 1, cooloff * 2);
    var events := [Issue(CallOf(req)), Sleep(cooloff)] + rest.events;
    assert events[1..][1..] == rest.events;
    Run(rest.finish, events)
  }

  /** The helper itself: attempt 0 first, cooloff one second. */
  function RequestLoop<P>(req: Request<P>, network: nat -> Outcome, numAttempts: int): (run: Run<P>)
    ensures CallCount(run.events) <= if numAttempts <= 0 then 0 else numAttempts
    ensures run.finish.FellThrough? <==> numAttempts <= 0
  {
    Attempts(req, network, numAttempts, 0, 1)
  }

  /** The same loop written as the source writes it, with a mutable attempt
      index and cooloff and the trace accumulated as it goes. */
  method RequestWithCooloffLoop<P>(req: Request<P>, network: nat -> Outcome, numAttempts: int)
    returns (finish: Finish, events: seq<Event<P>>)
    ensures Run(finish, events) == RequestLoop(req, network, numAttempts)
    ensures CallCount(events) <= if numAttempts <= 0 then 0 else numAttempts
  {
    var cooloff: nat := 1;
    var callCount := 0;
    events := [];
    while callCount < numAttempts
      invariant 0 <= callCount
      invariant numAttempts > 0 ==> callCount < numAttempts
      invariant cooloff == Pow2(|SleepTrace(events)|)
      invariant RequestLoop(req, network, numAttempts)
             == var rest := Attempts(req, network, numAttempts, callCount, cooloff);
                Run(rest.finish, events + rest.events)
      decreases numAttempts - callCount
    {
      var stop, attemptFinish, step := OneAttempt(req, network, numAttempts, callCount, cooloff);
      if stop {
        return attemptFinish, events + step;
      }
      ghost var next := Attempts(req, network, numAttempts, callCount + 1, cooloff * 2);
      assert events + (step + next.events) == (events + step) + next.events;
      SleepTraceAppend(events, step);
      SleepTraceOfRetry(CallOf(req), cooloff);
      events := events + step;
      cooloff := cooloff * 2;
      callCount := callCount + 1;
    }
    finish := FellThrough;
  }

  /** The body of the `for` loop: one call, then either the end of the run
      (`stop`, with what the attempt returned or raised) or a sleep of
      `cooloff` before the loop continues. */
  method OneAttempt<P>(req: Request<P>, network: nat -> Outcome, numAttempts: int, callCount: nat, cooloff: nat)
    returns (stop: bool, finish: Finish, step: seq<Event<P>>)
    requires callCount < numAttempts
    ensures stop ==> Attempts(req, network, numAttempts, callCount, cooloff) == Run(finish, step)
    ensures !stop ==> callCount < numAttempts - 1 && step == [Issue(CallOf(req)), Sleep(cooloff)]
    ensures !stop ==>
      var next := Attempts(req, network, numAttempts, callCount + 1, cooloff * 2);
      Attempts(req, network, numAttempts, callCount, cooloff) == Run(next.finish, step + next.events)
  {
    var issue := Issue(CallOf(req));
    var outcome := network(callCount);
    if outcome.Responded? && !RaisesForStatus(outcome.response.status) {
      AttemptsStop(req, network, numAttempts, callCount, cooloff);
      return true, Returned(outcome.response), [issue];
    }
    if outcome.OtherException? {
      AttemptsStop(req, network, numAttempts, callCount, cooloff);
      return true, Raised(OtherError), [issue];
    }
    var failure := if outcome.ConnectionFailed? then ConnectionError else HttpError(outcome.response.status);
    if failure.HttpError? && failure.status == 404 {
      AttemptsStop(req, network, numAttempts, callCount, cooloff);
      return true, Raised(failure), [issue];
    }
    if callCount == numAttempts - 1 {
      AttemptsStop(req, network, numAttempts, callCount, cooloff);
      return true, Raised(failure), [issue];
    }
    AttemptsRetry(req, network, numAttempts, callCount, cooloff);
    return false, FellThrough, [issue, Sleep(cooloff)];
  }

  /** An attempt that stops the loop contributes its one call and its verdict. */
  lemma AttemptsStop<P>(req: Request<P>, network: nat -> Outcome, numAttempts: int, callCount: nat, cooloff: nat)
    requires callCount < numAttempts
    requires callCount == numAttempts - 1 || !Retryable(network(callCount))
    ensures Attempts(req, network, numAttempts, callCount, cooloff)
         == Run(Verdict(network(callCount)), [Issue(CallOf(req))])
  {
  }

  /** An attempt that is retried contributes its call and one wait of `cooloff`. */
  lemma AttemptsRetry<P>(req: Request<P>, network: nat -> Outcome, numAttempts: int, callCount: nat, cooloff: nat)
    requires callCount < numAttempts - 1
    requires Retryable(network(callCount))
    ensures Attempts(req, network, numAttempts, callCount, cooloff)
         == var rest := Attempts(req, network, numAttempts, callCount + 1, cooloff * 2);
            Run(rest.finish, [Issue(CallOf(req)), Sleep(cooloff)] + rest.events)
  {
  }

  lemma SleepTraceAppend<P>(a: seq<Event<P>>, b: seq<Event<P>>)
    ensures SleepTrace(a + b) == SleepTrace(a) + SleepTrace(b)
  {
    if a != [] {
      assert (a + b)[1..] == a[1..] + b;
      SleepTraceAppend(a[1..], b);
    } else {
      assert a + b == b;
    }
  }

  /** A retried attempt's own contribution: one call, one wait. */
  lemma SleepTraceOfRetry<P>(call: Call<P>, cooloff: nat)
    ensures SleepTrace([Issue(call), Sleep(cooloff)]) == [cooloff]
    ensures CallCount([Issue(call), Sleep(cooloff)]) == 1
  {
    var pair: seq<Event<P>> := [Issue(call), Sleep(cooloff)];
    var tail: seq<Event<P>> := [Sleep(cooloff)];
    assert pair[1..] == tail;
    assert tail[1..] == [];
    assert SleepTrace(tail) == [cooloff] + SleepTrace(tail[1..]);
    assert CallCount(tail) == CallCount(tail[1..]);
  }

  lemma CallCountAppend<P>(a: seq<Event<P>>, b: seq<Event<P>>)
    ensures CallCount(a + b) == CallCount(a) + CallCount(b)
  {
    if a != [] {
      assert (a + b)[1..] == a[1..] + b;
      CallCountAppend(a[1..], b);
    } else {
      assert a + b == b;
    }
  }
}
