# Retry with exponential cooloff, modelled in Dafny

The meteo script in `src/module_1/zrive_sloution_meteo_api.py` fetches its data
through one resilient request helper. `_request_with_cooloff` makes up to
`num_attempts` GET requests, or POST requests when a payload is given. After a
failed connection or an HTTP error other than 404 it sleeps `cooloff` seconds
and tries again. The cooloff starts at 1 and doubles after every sleep. A 404
is re-raised at once. On the final attempt the error is re-raised instead of
sleeping. `request_with_cooloff` wraps the helper with a default budget of ten
attempts and decodes the body of the returned response as UTF-8 JSON.

This project models both functions and proves their retry policy.

- `http.dfy` (`Http`): requests, responses, the outcome of one network call,
  the rule `raise_for_status` applies, and what a stopping attempt ends with.
- `cooloff.dfy` (`Cooloff`): the loop as a recursive function `Attempts`, the
  same loop as an imperative method, and the trace of calls and sleeps.
- `schedule.dfy` (`Schedule`): an independent description of every run. It
  fixes where the run stops, how it ends, and which calls and waits come
  before. It also holds the theorem that the loop meets this description.
- `properties.dfy` (`Properties`): the helper's promises, each proved from
  that theorem.
- `fetch.dfy` (`Fetch`): the public wrapper, with its default budget and its
  decode-on-success step.
- `scenarios.dfy` (`Scenarios`): concrete runs against fixed networks.

The network is an oracle. It maps the attempt index to that attempt's outcome:
a response of some status, a failed connection (any `requests`
`ConnectionError`, including its `ConnectTimeout`, `SSLError` and
`ProxyError` subclasses), or any other client exception. Sleeping is not modelled as
time. Each sleep appends `Sleep(seconds)` to the run's trace, and each call
appends `Issue(call)`, where the call records the verb, URL, headers and JSON
payload.

Points of the code's behaviour that the model keeps:

- `raise_for_status` raises only for a status from 400 to 599. A 3xx or 600+
  response that reaches the helper is returned like a 200.
- `num_attempts` may be zero or negative. Then `range(num_attempts)` is empty,
  no call is made, and the helper returns None. The wrapper then fails reading
  `.content` of None. `Fetch.Error.NoContent` stands for that failure.
- The helper re-raises the original exception. A retried run that runs out
  ends with the last attempt's own `ConnectionError` or `HTTPError`.
- Other client exceptions, such as a read timeout or too many redirects, are
  caught by neither `except` clause. They leave the loop at once, without a
  retry.
- The status checked for 404 is always the status of the current attempt's
  response. Only `raise_for_status` raises `HTTPError`, and it runs on the
  response that was just assigned.

## Model

| member | source | states |
|---|---|---|
| `Http.CallOf` | src/module_1/zrive_sloution_meteo_api.py:30-33 | a request without a payload is issued as a GET, and one with a payload as a POST carrying it; URL and headers pass through unchanged |
| `Http.RaisesForStatus` | src/module_1/zrive_sloution_meteo_api.py:34-34 | `raise_for_status` rejects a response exactly when its status is a client error or a server error, 400 to 599 |
| `Http.Retryable` | src/module_1/zrive_sloution_meteo_api.py:36-53 | an attempt is retried (when attempts remain) exactly when it raised a connection error, or an HTTP error whose status is not 404 |
| `Http.Verdict` | src/module_1/zrive_sloution_meteo_api.py:34-55 | an attempt that stops the loop returns its response exactly when the status passes `raise_for_status`; otherwise it raises a connection error, an HTTP error carrying that status, or the other exception |
| `Cooloff.Attempts` | src/module_1/zrive_sloution_meteo_api.py:28-55 | from attempt i the loop falls through exactly when no attempt is left, and otherwise makes between one call and the number of attempts left |
| `Cooloff.Retry` | src/module_1/zrive_sloution_meteo_api.py:39-42 | a retry happens only before the last attempt, and it is followed by at least one further call without exceeding the budget |
| `Cooloff.RequestLoop` | src/module_1/zrive_sloution_meteo_api.py:24-55 | never more calls than `num_attempts`, and the helper returns None exactly when `num_attempts` is not positive |
| `Cooloff.RequestWithCooloffLoop` | src/module_1/zrive_sloution_meteo_api.py:24-55 | the imperative loop over a mutable attempt index and cooloff produces the same ending and trace as the recursive model, so it too makes no more calls than `num_attempts`; its loop keeps the cooloff equal to 2 to the number of sleeps so far |
| `Cooloff.OneAttempt` | src/module_1/zrive_sloution_meteo_api.py:29-55 | one pass of the loop body: it either ends the run exactly as the model's attempt does, or, only before the last attempt, yields its call and a sleep of the current cooloff, after which the model continues with the cooloff doubled |
| `Cooloff.AttemptsStop` | src/module_1/zrive_sloution_meteo_api.py:34-48 | an attempt that succeeds, raises a 404 or another exception, or is the last allowed one adds its single call and ends the run with its verdict |
| `Cooloff.AttemptsRetry` | src/module_1/zrive_sloution_meteo_api.py:50-53 | a retryable attempt before the last one adds its call and a sleep of the current cooloff, then continues with the cooloff doubled |
| `Schedule.StopIndex` | src/module_1/zrive_sloution_meteo_api.py:28-55 | the attempt the loop stops at is within the budget; every earlier attempt is retryable; it is either the last allowed attempt or not retryable |
| `Schedule.AttemptsFollowSchedule` | src/module_1/zrive_sloution_meteo_api.py:27-55 | from attempt i with cooloff 2^i, the run ends with the stopping attempt's verdict; its trace alternates calls with sleeps of 2^i, 2^(i+1), ... up to that attempt |
| `Schedule.RequestLoopIsExpected` | src/module_1/zrive_sloution_meteo_api.py:24-55 | on every input the helper equals the independent description: nothing without a budget, otherwise the stopping attempt's verdict after the scheduled calls and sleeps |
| `Schedule.ScheduleCallCount` | src/module_1/zrive_sloution_meteo_api.py:28-33 | a schedule of c attempts contains exactly c calls |
| `Schedule.ScheduleSleeps` | src/module_1/zrive_sloution_meteo_api.py:40-41 | a schedule of c attempts sleeps exactly c - 1 times, doubling from its first cooloff |
| `Schedule.BackoffsSum` | src/module_1/zrive_sloution_meteo_api.py:27-41 | the sleeps 1, 2, ..., 2^(m-1) total 2^m - 1 seconds |
| `Schedule.StopIndexByPattern` | src/module_1/zrive_sloution_meteo_api.py:36-53 | two networks that are retryable at the same attempts stop at the same attempt |
| `Properties.CallsWithinBudget` | src/module_1/zrive_sloution_meteo_api.py:28-33 | a non-positive budget gives no call and a fall-through; otherwise the calls number the stopping index plus one, never more than `num_attempts` |
| `Properties.StopsAt` | src/module_1/zrive_sloution_meteo_api.py:27-55 | a run stopping at attempt j ends with that attempt's verdict after j + 1 calls and the sleeps 1, 2, ..., 2^(j-1) |
| `Properties.FirstSuccessIsReturned` | src/module_1/zrive_sloution_meteo_api.py:34-35 | after j retryable failures, a response that passes `raise_for_status` at attempt j is returned as it is, after j + 1 calls and the sleeps 1, 2, ..., 2^(j-1), whatever budget remains |
| `Properties.NotFoundRaisedAtOnce` | src/module_1/zrive_sloution_meteo_api.py:45-48 | after j retryable failures, a 404 at attempt j is raised after j + 1 calls and the sleeps 1, 2, ..., 2^(j-1): no sleep and no further call, whatever budget remains |
| `Properties.BackoffDoubles` | src/module_1/zrive_sloution_meteo_api.py:40-52 | the k-th sleep of any run, counting from 0, lasts exactly 2^k seconds |
| `Properties.CallsAndWaitsAlternate` | src/module_1/zrive_sloution_meteo_api.py:39-55 | with a positive budget the trace alternates calls and sleeps, starts and ends with a call, so no sleep follows the last call; every call is the request's own GET or POST |
| `Properties.ExhaustionRaisesLastFailure` | src/module_1/zrive_sloution_meteo_api.py:43-55 | when every allowed attempt is retryable, all of them are made with n - 1 doubling sleeps, and the error raised is the last attempt's: a connection error, or an HTTP error with the last status |
| `Properties.WaitsIgnoreFailureKind` | src/module_1/zrive_sloution_meteo_api.py:36-53 | connection errors and non-404 HTTP errors share one schedule: networks that are retryable at the same attempts give identical traces |
| `Properties.TotalWait` | src/module_1/zrive_sloution_meteo_api.py:27-55 | a run of c calls sleeps c - 1 times, 2^(c-1) - 1 seconds in all |
| `Fetch.RequestWithCooloff` | src/module_1/zrive_sloution_meteo_api.py:57-70 | the wrapper's trace is the loop's; a returned response gives the decoded document when its body decodes and a decoding failure when it does not; the loop's exception propagates unchanged; the no-response failure occurs exactly when the budget is not positive |
| `Fetch.FetchWithDefaultBudget` | src/module_1/zrive_sloution_meteo_api.py:57-62 | with the default budget of ten the wrapper makes between one and ten calls and never hits the no-response failure |
| `Fetch.DecodeOnlyReturnedResponse` | src/module_1/zrive_sloution_meteo_api.py:63-69 | when the loop returned no response the decoder is never consulted: any two decoders give the same result |
| `Fetch.DecodedFromLastCall` | src/module_1/zrive_sloution_meteo_api.py:63-70 | a decoded document comes from the last call's response, which passed `raise_for_status`, and the decoder maps its body to that document |
| `Fetch.DefaultBudgetExhausted` | src/module_1/zrive_sloution_meteo_api.py:57-70 | ten retryable failures in a row give ten calls, nine sleeps of 1 to 256 seconds (511 in all), and the tenth attempt's exception |
| `Scenarios.FirstAttemptSucceeds` | src/module_1/zrive_sloution_meteo_api.py:34-35 | a status-200 first response is decoded after a single call and no sleep |
| `Scenarios.ServerErrorExhaustsThreeAttempts` | src/module_1/zrive_sloution_meteo_api.py:45-55 | status 500 throughout with a budget of three gives three calls, sleeps of 1 and 2 seconds, and the third 500 raised |
| `Scenarios.ConnectionRecovers` | src/module_1/zrive_sloution_meteo_api.py:36-42 | two failed connections then a status-200 response give three calls, sleeps of 1 and 2 seconds, and the decoded body |
| `Scenarios.NotFoundOnFirstAttempt` | src/module_1/zrive_sloution_meteo_api.py:45-48 | a first-attempt 404 is raised after one call although nine attempts remain |
| `Scenarios.ZeroBudgetFallsThrough` | src/module_1/zrive_sloution_meteo_api.py:28-28 | a budget of zero makes no call; the helper returns None and the wrapper has no body to decode |

## Left out

- Real HTTP (`requests.get`, `requests.post`, `raise_for_status`): the network is an oracle from attempt index to outcome. `raise_for_status` is reduced to its status rule, 400 to 599.
- `time.sleep`: a sleep is a trace entry carrying its duration. No time passes.
- Logging at lines 11-12, 37-38, 46 and 49: it has no effect on results.
- UTF-8 and JSON decoding in `request_with_cooloff`: library behaviour, so it is a decoder parameter. The parameter maps a body to a document, or to None on failure.
- An `HTTPError` raised by `requests.get` or `requests.post` itself rather than by `raise_for_status`: `requests` does not raise one there. If it did, the 404 check would read a stale `response`, or fail when none is bound yet.
- Exceptions outside the `requests` client, such as a keyboard interrupt during a sleep: the source does not handle them.
- `get_data_meteo_api`: URL building with `urlencode` over float coordinates, a thin wrapper around the helper.
- `compute_monthly_statistics`: pandas grouping with floating-point max, mean, min and standard deviation.
- `plot_timeseries` and `main`: matplotlib rendering and top-level orchestration.
- `src/module_2/EDA_1.py`: S3 listing and download with boto3, and directory creation. It is I/O plumbing.
