/**
 `request_with_cooloff`, the public face of the retry loop: a default budget
 of ten attempts, and the body of the returned response decoded as UTF-8
 JSON. Decoding is library behaviour and stays a parameter: it maps the raw
 body to a document, or to None when the bytes are not UTF-8 or not JSON.
 */
module Fetch {
  import opened Http
  import opened Cooloff
  import opened Schedule
  import opened Properties

  /** The `num_attempts` a caller gets by leaving it out. */
  const DefaultAttempts: int := 10

  /** Why the wrapper produced no document: the loop's own exception, a body
      that does not decode, or no response at all to take a body from (the
      loop fell through and returned None). */
  datatype Error = Propagated(failure: Failure) | DecodeFailed | NoContent

  datatype Reply<D> = Decoded(doc: D) | Failed(error: Error)

  datatype Fetched<P, D> = Fetched(reply: Reply<D>, events: seq<Event<P>>)

  /** The loop, then the decoder applied to the body of the response it
      returned, and to nothing else. */
  function RequestWithCooloff<P, D>(req: Request<P>, network: nat -> Outcome,
                                    decode: seq<byte> -> Option<D>, numAttempts: int): (f: Fetched<P, D>)
    ensures f.events == RequestLoop(req, network, numAttempts).events
    ensures f.reply.Decoded? ==>
      && RequestLoop(req, network, numAttempts).finish.Returned?
      && decode(RequestLoop(req, network, numAttempts).finish.response.content) == Some(f.reply.doc)
    ensures f.reply.Failed? && f.reply.error.Propagated? <==> RequestLoop(req, network, numAttempts).finish.Raised?
    ensures RequestLoop(req, network, numAttempts).finish.Raised? ==>
      f.reply == Failed(Propagated(RequestLoop(req, network, numAttempts).finish.failure))
    ensures RequestLoop(req, network, numAttempts).finish.Returned? ==>
      f.reply == (match decode(RequestLoop(req, network, numAttempts).finish.response.content)
                  case Some(doc) => Decoded(doc)
                  case None => Failed(DecodeFailed))
    ensures f.reply == Failed(NoContent) <==> numAttempts <= 0
  {
    var run := RequestLoop(req, network, numAttempts);
    var reply :=
      match run.finish
      case Returned(resp) =>
        (match decode(resp.content)
         case Some(doc) => Decoded(doc)
         case None => Failed(DecodeFailed))
      case Raised(failure) => Failed(Propagated(failure))
      case FellThrough => Failed(NoContent);
    Fetched(reply, run.events)
  }

  /** The wrapper with its default budget: at most ten calls, and never the
      fall-through that leaves nothing to decode. */
  function FetchWithDefaultBudget<P, D>(req: Request<P>, network: nat -> Outcome,
                                        decode: seq<byte> -> Option<D>): (f: Fetched<P, D>)
    ensures 1 <= CallCount(f.events) <= 10
    ensures f.reply != Failed(NoContent)
  {
    CallsWithinBudget(req, network, DefaultAttempts);
    RequestWithCooloff(req, network, decode, DefaultAttempts)
  }

  /** The decoder is never consulted unless the loop returned a response:
      on every other run, any two decoders give the same result. */
  lemma DecodeOnlyReturnedResponse<P, D>(req: Request<P>, network: nat -> Outcome,
                                         decode1: seq<byte> -> Option<D>, decode2: seq<byte> -> Option<D>,
                                         numAttempts: int)
    requires !RequestLoop(req, network, numAttempts).finish.Returned?
    ensures RequestWithCooloff(req, network, decode1, numAttempts)
         == RequestWithCooloff(req, network, decode2, numAttempts)
  {
  }

  /** A decoded document is the body of the last call's response, a response
      that passed `raise_for_status`. */
  lemma DecodedFromLastCall<P, D>(req: Request<P>, network: nat -> Outcome,
                                  decode: seq<byte> -> Option<D>, numAttempts: int)
    ensures var f := RequestWithCooloff(req, network, decode, numAttempts);
            var last := CallCount(f.events) - 1;
            f.reply.Decoded? ==>
              && 0 <= last < numAttempts
              && network(last).Responded?
              && !RaisesForStatus(network(last).response.status)
              && decode(network(last).response.content) == Some(f.reply.doc)
  {
    CallsWithinBudget(req, network, numAttempts);
    if numAttempts > 0 {
      StopsAt(req, network, numAttempts, StopIndex(network, numAttempts, 0));
    }
  }

  /** Ten retryable failures in a row: ten calls, nine waits of 1, 2, ...,
      256 seconds (511 in all), and the tenth attempt's exception. */
  lemma DefaultBudgetExhausted<P, D>(req: Request<P>, network: nat -> Outcome, decode: seq<byte> -> Option<D>)
    requires forall i :: 0 <= i < 10 ==> Retryable(network(i))
    ensures var f := FetchWithDefaultBudget(req, network, decode);
            && Verdict(network(9)).Raised?
            && f.reply == Failed(Propagated(Verdict(network(9)).failure))
            && CallCount(f.events) == 10
            && SleepTrace(f.events) == Backoffs(9, 0)
            && Sum(SleepTrace(f.events)) == 511
  {
    ExhaustionRaisesLastFailure(req, network, DefaultAttempts);
    BackoffsSum(9);
  }
}
