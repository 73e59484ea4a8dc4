# Health-check drop-in, modelled in Dafny

The system is a small Express helper that answers requests for `/health` with 200 when
a set of caller-supplied check functions all return `true` (or when none is configured)
and with 503 otherwise. It can be mounted as a standalone server (`init`, which registers
the route for `GET` only) or as middleware (`middleware`, which tests only `req.url` and so
answers `/health` for any HTTP method; the modelled request accordingly carries only its
URL). This project models its logic as pure functions:

- `wrappers.dfy` — `Option`, standing for a value that may be `null`/`undefined`.
- `checks.dfy` (module `Checks`) — `executeCustomChecks`: the `reduce` of
  `accumulator && check()` seeded with `true`. A check is modelled by the boolean it
  returns; the model also records which checks are called, because `&&` skips the call
  once the accumulator is `false`.
- `responder.dfy` (module `Responder`) — `healthCheck` (one status, 200 or 503, and the
  same boolean returned) and the handler built by `middleware` (exact match on
  `"/health"`, otherwise `next()`). A request is reduced to its URL; the response and the
  `next` callback are modelled by the effects they record (statuses sent, `next` calls,
  checks called).

Two consequences of the code that the model makes explicit:

- `accumulator && check()` short-circuits: checks after the first `false` are not
  called, though `reduce` still visits their elements. Only the checks up to and
  including the first failing one are called.
- A check that throws is not counted as `false`; the exception propagates out of
  `reduce` (see "Left out").

## Model

| member | source | states |
|---|---|---|
| Checks.Reduce | src/index.js:17 | the reduce is `true` exactly when every check returns `true`; the checks called are indices 0, 1, … in order; all of them when none fails, otherwise the call count ends at a failing check and every earlier check passed |
| Checks.Evaluate | src/index.js:15-20 | an absent check set is healthy and calls no check; a present one, including an empty array, is healthy exactly when every check passes, and calls exactly as many checks as a short-circuiting conjunction does |
| Checks.ExecuteCustomChecks | src/index.js:15-20 | the reduce written as the loop it runs (every element visited, a check called only while the accumulator is `true`) returns `true` exactly when the check set is healthy (absent, or every check passes) and makes the same calls as the fold |
| Checks.InvokedUpToFirstFailure | src/index.js:17 | when the first failing check is at index i, exactly checks 0..i are called and none after; when no check fails, every check is called |
| Checks.LaterChecksIgnored | src/index.js:17 | once the accumulator is `false`, appending further checks changes neither the result nor the set of checks called |
| Checks.ReduceAppend | src/index.js:17 | the reduce over two concatenated check arrays is healthy exactly when both parts are; it calls the first part's checks and then, only if the first part was healthy, the second part's checks at their positions in the whole array |
| Checks.PermutationPreservesResult | src/index.js:17 | permuting the checks never changes the aggregate |
| Responder.HealthCheck | src/index.js:31-35 | exactly one status is sent, 200 when the checks are healthy and 503 otherwise, the returned boolean is that same result, `next` is not called, and the checks called are those of the evaluation |
| Responder.Middleware | src/index.js:63-71 | for URL exactly `/health` the handler does what `healthCheck` does (one status, 200 iff healthy, no `next`); for any other URL it calls `next` once, sends no status and calls no check; exactly one of the two happens |
| Responder.NearMissesPassThrough | src/index.js:65-69 | `/health/`, `/healthz`, `/health?x=1`, `/HEALTH` and the empty URL all pass through to `next` untouched |
| Responder.StatusIndependentOfOrder | src/index.js:31-35 | reordering the checks never changes the status a health request receives |
| Responder.ExampleRequests | src/index.js:15-35 | no checks gives 200; `[true, true]` gives 200 after calling both; `[true, false]` gives 503 after calling both; `[false, true]` gives 503 after calling only the first; `[]` gives 200; a non-health URL passes through even with a failing check configured |

## Left out

- `init` (src/index.js:43-54): building the Express app, registering the `/health` route,
  binding the socket with `app.listen` and the startup log line are framework I/O over a
  library that is not part of this model. The route handler it registers is
  `healthCheck`, which is modelled.
- Port selection `process.env.port || 3000` (src/index.js:48): an environment read on the
  I/O path. It is a plain truthiness fallback (an unset or empty variable gives 3000) and
  does no numeric validation.
- `module.exports` (src/index.js:74-77): wiring only.
- JavaScript truthiness: a check is modelled as returning a `bool`, as the doc-comment at src/index.js:12
  requires; a non-boolean truthy return value, which `&&` would pass on, is not modelled.
  Likewise the check set is either absent or an array; other falsy values of `checks`
  (which also take the "absent" branch) and non-array truthy values (on which `reduce`
  would throw) are not modelled.
- Exceptions thrown by a check: the code lets them propagate and does not treat them as
  a failed check; the model has no exceptions.
- Concurrency between requests: the handler keeps no state, and scheduling belongs to
  the host server. The source calls the check functions again on every request, and a
  real check (a database ping, say) can pass once and fail the next time; the model
  fixes each check's outcome, so only given the same check outcomes do repeated
  requests give identical effects.
- Side effects of the check functions themselves: only the fact that a check is called,
  and its index, is recorded.
