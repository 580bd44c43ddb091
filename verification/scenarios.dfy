/**
 Concrete runs of the helper against fixed networks: a first-try success, a
 persistent server error, a connection that comes back, a missing page, and
 an empty budget.
 */
module Scenarios {
  import opened Http
  import opened Cooloff
  import opened Schedule
  import opened Properties
  import opened Fetch

  /** A status-200 response on the first attempt is decoded after one call,
      with no wait. */
  lemma FirstAttemptSucceeds<P, D>(req: Request<P>, body: seq<byte>, doc: D, decode: seq<byte> -> Option<D>)
    requires decode(body) == Some(doc)
    ensures var f := FetchWithDefaultBudget(req, (i: nat) => Responded(Response(200, body)), decode);
            f == Fetched(Decoded(doc), [Issue(CallOf(req))])
  {
  }

  /** Status 500 on every attempt with a budget of three: three calls, waits
      of 1 then 2 seconds, and the third 500 raised. */
  lemma ServerErrorExhaustsThreeAttempts<P, D>(req: Request<P>, decode: seq<byte> -> Option<D>)
    ensures var f := RequestWithCooloff(req, (i: nat) => Responded(Response(500, [])), decode, 3);
            && f.reply == Failed(Propagated(HttpError(500)))
            && CallCount(f.events) == 3
            && SleepTrace(f.events) == [1, 2]
  {
    var network := (i: nat) => Responded(Response(500, []));
    ExhaustionRaisesLastFailure(req, network, 3);
    assert Backoffs(2, 0) == [1, 2] by {
      assert Pow2(1) == 2;
    }
  }

  /** Two failed connections, then a status-200 response: three calls, waits
      of 1 then 2 seconds, and the third body decoded. */
  lemma ConnectionRecovers<P, D>(req: Request<P>, body: seq<byte>, doc: D, decode: seq<byte> -> Option<D>)
    requires decode(body) == Some(doc)
    ensures var network := (i: nat) => if i < 2 then ConnectionFailed else Responded(Response(200, body));
            var f := FetchWithDefaultBudget(req, network, decode);
            && f.reply == Decoded(doc)
            && CallCount(f.events) == 3
            && SleepTrace(f.events) == [1, 2]
  {
    var network := (i: nat) => if i < 2 then ConnectionFailed else Responded(Response(200, body));
    FirstSuccessIsReturned(req, network, DefaultAttempts, 2);
    assert Backoffs(2, 0) == [1, 2] by {
      assert Pow2(1) == 2;
    }
  }

  /** A 404 on the first attempt is raised after that one call, although nine
      attempts remain. */
  lemma NotFoundOnFirstAttempt<P, D>(req: Request<P>, decode: seq<byte> -> Option<D>)
    ensures var f := FetchWithDefaultBudget(req, (i: nat) => Responded(Response(404, [])), decode);
            f == Fetched(Failed(Propagated(HttpError(404))), [Issue(CallOf(req))])
  {
  }

  /** A budget of zero makes no call, and the wrapper has no response to
      read a body from. */
  lemma ZeroBudgetFallsThrough<P, D>(req: Request<P>, network: nat -> Outcome, decode: seq<byte> -> Option<D>)
    ensures RequestLoop(req, network, 0) == Run(FellThrough, [])
    ensures RequestWithCooloff(req, network, decode, 0) == Fetched(Failed(NoContent), [])
  {
  }
}
