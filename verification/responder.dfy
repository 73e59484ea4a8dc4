/**
 The request-facing half of src/index.js: `healthCheck`, which turns the aggregate of
 the checks into exactly one HTTP status, and the handler returned by `middleware`,
 which answers only the exact path "/health" and hands every other request to `next`.
 The response object and the `next` callback are modelled by the effects they record.
 */
module Responder {
  import opened Wrappers
  import opened Checks

  /** Status sent when every check passes (or none is configured). */
  const HttpHealthy: int := 200
  /** Status sent when some check fails. */
  const HttpFailed: int := 503
  /** The one URL the middleware answers. */
  const HealthPath: string := "/health"

  /** The part of an inbound request the responder reads. */
  datatype Request = Request(url: string)

  /** The observable effects of handling one request: the status codes passed to
      `res.sendStatus`, in order; how many times `next()` was called; and the indices
      of the configured checks that were called. */
  datatype Effects = Effects(statuses: seq<int>, nextCalls: nat, invoked: seq<nat>)

  /** What `healthCheck` returns to its caller, together with its effects. */
  datatype HealthCheckResult = HealthCheckResult(result: bool, effects: Effects)

  /** `healthCheck(req, res, checks)`: evaluates the checks, sends one status (200 when
      healthy, 503 otherwise) and returns the same boolean it reported. */
  function HealthCheck(checks: CheckSet): (r: HealthCheckResult)
    ensures r.result <==> Healthy(checks)
    ensures |r.effects.statuses| == 1
    ensures r.effects.statuses[0] == HttpHealthy <==> r.result
    ensures r.effects.statuses[0] == HttpFailed <==> !r.result
    ensures r.effects.nextCalls == 0
    ensures r.effects.invoked == Evaluate(checks).invoked
  {
    var evaluation := Evaluate(checks);
    var status := if evaluation.healthy then HttpHealthy else HttpFailed;
    HealthCheckResult(evaluation.healthy, Effects([status], 0, evaluation.invoked))
  }

  /** The handler `middleware(checks)` returns, applied to one request: an exact match
      on "/health" runs `healthCheck`; any other URL, including "/health/" or one with
      a query string, calls `next()` and does nothing else. */
  function Middleware(checks: CheckSet, req: Request): (e: Effects)
    ensures e.nextCalls == 0 <==> req.url == HealthPath
    ensures |e.statuses| + e.nextCalls == 1
    ensures req.url == HealthPath ==> e == HealthCheck(checks).effects
    ensures req.url == HealthPath ==> (e.statuses[0] == HttpHealthy <==> Healthy(checks))
    ensures req.url != HealthPath ==> e.invoked == []
  {
    if req.url == HealthPath then HealthCheck(checks).effects
    else Effects([], 1, [])
  }

  /** The dispatch is exact string equality, not a prefix or pattern match: near
      misses pass through without calling any check, whatever the checks would say. */
  lemma NearMissesPassThrough(checks: CheckSet)
    ensures forall url :: url in ["/health/", "/healthz", "/health?x=1", "/HEALTH", ""] ==>
      Middleware(checks, Request(url)) == Effects([], 1, [])
  {
  }

  /** Reordering the configured checks never changes the status a health request
      receives. */
  lemma StatusIndependentOfOrder(outcomes: seq<bool>, permuted: seq<bool>)
    requires multiset(outcomes) == multiset(permuted)
    ensures HealthCheck(Some(outcomes)).effects.statuses == HealthCheck(Some(permuted)).effects.statuses
  {
    PermutationPreservesResult(outcomes, permuted);
  }

  /** Example requests: no checks, all passing, one failing after a passing one, one
      failing before a passing one, an empty array, and a non-health path with a failing
      check configured. */
  lemma ExampleRequests()
    ensures HealthCheck(None).effects.statuses == [200]
    ensures HealthCheck(Some([true, true])).effects == Effects([200], 0, [0, 1])
    ensures HealthCheck(Some([true, false])).effects == Effects([503], 0, [0, 1])
    ensures HealthCheck(Some([false, true])).effects == Effects([503], 0, [0])
    ensures HealthCheck(Some([])).effects == Effects([200], 0, [])
    ensures Middleware(Some([false]), Request("/other-path")) == Effects([], 1, [])
  {
  }
}
