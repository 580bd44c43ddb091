/**
 The HTTP boundary of the meteo request helper, reduced to what its retry
 policy can observe: the request it issues, the outcome of one call, and the
 exception (if any) that outcome raises.
 */
module Http {

  /** The conventional optional value: a JSON payload, or a decoded document. */
  datatype Option<+T> = None | Some(value: T)

  newtype byte = x: int | 0 <= x < 256

  /** A response as the retry loop sees it: its status code and its raw body. */
  datatype Response = Response(status: int, content: seq<byte>)

  /** A request as handed to the helper. A present `payload` makes it a POST
      carrying that payload as its JSON body; an absent one makes it a GET. */
  datatype Request<P> = Request(url: string, headers: map<string, string>, payload: Option<P>)

  /** One network call, as actually issued. */
  datatype Call<P> =
    | Get(url: string, headers: map<string, string>)
    | Post(url: string, headers: map<string, string>, json: P)

  /** What one call to the network produces, before `raise_for_status`:
      a response (of any status), a failed connection (any
      `ConnectionError` of the client, including its `ConnectTimeout`,
      `SSLError` and `ProxyError` subclasses), or any other
      exception of the HTTP client (a read timeout, too many redirects, ...). */
  datatype Outcome = Responded(response: Response) | ConnectionFailed | OtherException

  /** The exception a failed attempt raises out of the helper. */
  datatype Failure = ConnectionError | HttpError(status: int) | OtherError

  /** Chooses the verb from the presence of a payload; the url and headers are
      passed through unchanged. */
  function CallOf<P>(req: Request<P>): (c: Call<P>)
    ensures c.url == req.url && c.headers == req.headers
    ensures c.Get? <==> req.payload.None?
    ensures c.Post? ==> c.json == req.payload.value
  {
    match req.payload
    case None => Get(req.url, req.headers)
    case Some(p) => Post(req.url, req.headers, p)
  }

  /** The rule `raise_for_status` applies: client errors (4xx) and server
      errors (5xx) raise an HTTP error; every other status is returned. */
  predicate RaisesForStatus(status: int)
    ensures RaisesForStatus(status) <==> 400 <= status < 600
  {
    || 400 <= status < 500   // client error
    || 500 <= status < 600   // server error
  }

  /** Whether the helper waits and tries again after this outcome (provided
      attempts remain): a failed connection, or an HTTP error other than 404.
      Equivalently: the attempt raised a connection error, or an HTTP error
      whose status is not 404. */
  predicate Retryable(o: Outcome)
    ensures Retryable(o) <==>
      || Verdict(o) == Raised(ConnectionError)
      || (Verdict(o).Raised? && Verdict(o).failure.HttpError? && Verdict(o).failure.status != 404)
  {
    || o.ConnectionFailed?
    || (o.Responded? && RaisesForStatus(o.response.status) && o.response.status != 404)
  }

  /** What the helper ends with when it stops on this outcome: the response
      itself when the status passes, otherwise the exception the outcome raised. */
  datatype Finish = Returned(response: Response) | Raised(failure: Failure) | FellThrough

  function Verdict(o: Outcome): (f: Finish)
    ensures f.Returned? <==> o.Responded? && !RaisesForStatus(o.response.status)
    ensures f.Returned? ==> f.response == o.response
    ensures !f.FellThrough?
    ensures f == Raised(ConnectionError) <==> o.ConnectionFailed?
    ensures f == Raised(OtherError) <==> o.OtherException?
    ensures f.Raised? && f.failure.HttpError? <==> o.Responded? && RaisesForStatus(o.response.status)
    ensures f.Raised? && f.failure.HttpError? ==> f.failure.status == o.response.status
  {
    match o
    case Responded(resp) =>
      if RaisesForStatus(resp.status) then Raised(HttpError(resp.status)) else Returned(resp)
    case ConnectionFailed => Raised(ConnectionError)
    case OtherException => Raised(OtherError)
  }
}
