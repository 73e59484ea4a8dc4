/**
 The aggregation of caller-supplied health checks performed by `executeCustomChecks`
 in src/index.js: a left fold of `acc && check()` over the check array, seeded with
 `true`. Each check is modelled by the boolean it returns when called; the fold also
 records which checks it actually calls, because JavaScript's `&&` does not call the
 right operand once the accumulator is false.
 */
module Checks {
  import opened Wrappers

  /** A configured check set: absent (`null`/`undefined`), or the outcome each check
      function returns, in array order. */
  type CheckSet = Option<seq<bool>>

  /** What one evaluation observes: the aggregate result and the array indices of the
      checks that were called, in call order. */
  datatype Evaluation = Evaluation(healthy: bool, invoked: seq<nat>)

  /** Every check in the sequence reports success. */
  predicate AllPass(outcomes: seq<bool>) {
    forall i :: 0 <= i < |outcomes| ==> outcomes[i]
  }

  /** The meaning of the aggregate given in the doc-comment of `executeCustomChecks`:
      healthy when no check set is configured, otherwise exactly when every check
      reports success. */
  predicate Healthy(checks: CheckSet) {
    checks.None? || AllPass(checks.value)
  }

  /** `calls` is the run of indices 0, 1, ..., |calls| - 1, in that order. */
  predicate CalledInOrder(calls: seq<nat>) {
    forall k :: 0 <= k < |calls| ==> calls[k] == k
  }

  /** Reference definition, scanning from the front: the index of the first failing
      check, or `None` when every check passes. */
  function FirstFailure(outcomes: seq<bool>): (r: Option<nat>)
    ensures r.None? <==> AllPass(outcomes)
    ensures r.Some? ==> r.value < |outcomes| && !outcomes[r.value]
    ensures r.Some? ==> forall j :: 0 <= j < r.value ==> outcomes[j]
  {
    if |outcomes| == 0 then None
    else if !outcomes[0] then Some(0)
    else match FirstFailure(outcomes[1..])
      case None => None
      case Some(i) => Some(i + 1)
  }

  /** Reference count of the checks a short-circuiting conjunction calls: all of them
      when none fails, otherwise those up to and including the first failure. */
  function CallCount(outcomes: seq<bool>): (n: nat)
    ensures n <= |outcomes|
    ensures n == |outcomes| || (0 < n && !outcomes[n - 1])
  {
    match FirstFailure(outcomes)
    case None => |outcomes|
    case Some(i) => i + 1
  }

  /** One step of `reduce((accumulator, check) => accumulator && check(), true)`:
      the check at `index` is called only while the accumulator is still true. */
  function Step(acc: Evaluation, index: nat, outcome: bool): Evaluation {
    if acc.healthy then Evaluation(outcome, acc.invoked + [index]) else acc
  }

  /** The reduce itself: a left fold of `Step` over the whole array, seeded with `true`
      and no calls. The fold visits every element, but after the first failure no step
      calls its check. */
  function Reduce(outcomes: seq<bool>): (r: Evaluation)
    ensures r.healthy <==> AllPass(outcomes)
    ensures CalledInOrder(r.invoked) && |r.invoked| <= |outcomes|
    ensures r.healthy ==> |r.invoked| == |outcomes|
    ensures !r.healthy ==> 0 < |r.invoked| && !outcomes[|r.invoked| - 1]
    ensures !r.healthy ==> AllPass(outcomes[..|r.invoked| - 1])
    decreases |outcomes|
  {
    if |outcomes| == 0 then Evaluation(true, [])
    else
      var last := |outcomes| - 1;
      var prefix := Reduce(outcomes[..last]);
      assert forall j :: 0 <= j < |prefix.invoked| ==> outcomes[..last][j] == outcomes[j];
      assert !prefix.healthy ==> outcomes[..last][..|prefix.invoked| - 1] == outcomes[..|prefix.invoked| - 1];
      Step(prefix, last, outcomes[last])
  }

  /** `executeCustomChecks`, as a function: an absent check set is healthy and calls
      nothing; a present one (even an empty array, which JavaScript treats as truthy)
      goes through the reduce. */
  function Evaluate(checks: CheckSet): (r: Evaluation)
    ensures r.healthy <==> Healthy(checks)
    ensures CalledInOrder(r.invoked)
    ensures checks.None? ==> r.invoked == []
    ensures checks.Some? ==> |r.invoked| == CallCount(checks.value)
  {
    match checks
    case None => Evaluation(true, [])
    case Some(outcomes) =>
      InvokedUpToFirstFailure(outcomes);
      Reduce(outcomes)
  }

  /** `executeCustomChecks`, as the loop that `Array.prototype.reduce` runs: the
      accumulator starts at `true`, every element is visited, and a check is called
      only while the accumulator is true. */
  method ExecuteCustomChecks(checks: CheckSet) returns (result: bool, invoked: seq<nat>)
    ensures result <==> Healthy(checks)
    ensures Evaluation(result, invoked) == Evaluate(checks)
  {
    result := true;
    invoked := [];
    if checks.Some? {
      var outcomes := checks.value;
      var i := 0;
      while i < |outcomes|
        invariant 0 <= i <= |outcomes|
        invariant Evaluation(result, invoked) == Reduce(outcomes[..i])
      {
        if result {
          result := outcomes[i];
          invoked := invoked + [i];
        }
        assert outcomes[..i + 1][..i] == outcomes[..i];
        i := i + 1;
      }
      assert outcomes[..i] == outcomes;
    }
  }

  /** Short-circuit: when the first failing check is at index `i`, exactly checks
      0..i are called, in order, and none after; when no check fails, every check is
      called. */
  lemma InvokedUpToFirstFailure(outcomes: seq<bool>)
    ensures FirstFailure(outcomes).None? ==> |Reduce(outcomes).invoked| == |outcomes|
    ensures FirstFailure(outcomes).Some? ==>
      |Reduce(outcomes).invoked| == FirstFailure(outcomes).value + 1
    ensures forall j :: j in Reduce(outcomes).invoked <==> 0 <= j < CallCount(outcomes)
  {
  }

  /** The indices `calls`, each moved up by `offset`: the calls of a fold over a suffix,
      renumbered as positions in the whole array. */
  function Shift(calls: seq<nat>, offset: nat): seq<nat> {
    seq(|calls|, k requires 0 <= k < |calls| => calls[k] + offset)
  }

  /** The append law of the fold: the reduce over `front + back` is healthy exactly when
      both parts are, and it calls the checks of `front` and then, only if `front` was
      healthy, the checks the reduce over `back` alone would call, at their positions
      in the whole array. */
  lemma {:induction false} ReduceAppend(front: seq<bool>, back: seq<bool>)
    ensures Reduce(front + back).healthy == (Reduce(front).healthy && Reduce(back).healthy)
    ensures Reduce(front + back).invoked ==
      if Reduce(front).healthy
      then Reduce(front).invoked + Shift(Reduce(back).invoked, |front|)
      else Reduce(front).invoked
    decreases |back|
  {
    if |back| == 0 {
      assert front + back == front;
    } else {
      var last := |back| - 1;
      var shorter := back[..last];
      ReduceAppend(front, shorter);
      assert (front + back)[..|front + back| - 1] == front + shorter;
      assert (front + back)[|front + back| - 1] == back[last];
      var inner := Reduce(shorter);
      if Reduce(front).healthy && inner.healthy {
        assert Shift(inner.invoked + [last], |front|)
          == Shift(inner.invoked, |front|) + [last + |front|];
      }
    }
  }

  /** Once the accumulator is false, the remaining elements change nothing: appending
      more checks neither alters the result nor calls any of them. */
  lemma LaterChecksIgnored(outcomes: seq<bool>, more: seq<bool>)
    requires !Reduce(outcomes).healthy
    ensures Reduce(outcomes + more) == Reduce(outcomes)
  {
    ReduceAppend(outcomes, more);
  }

  /** The aggregate does not depend on the order of the checks (though the set of
      checks called may). */
  lemma PermutationPreservesResult(outcomes: seq<bool>, permuted: seq<bool>)
    requires multiset(outcomes) == multiset(permuted)
    ensures Reduce(outcomes).healthy == Reduce(permuted).healthy
  {
    AllPassIffNoFailure(outcomes);
    AllPassIffNoFailure(permuted);
  }

  /** Every check passes exactly when `false` does not occur among the outcomes. */
  lemma AllPassIffNoFailure(outcomes: seq<bool>)
    ensures AllPass(outcomes) <==> false !in multiset(outcomes)
  {
  }
}
