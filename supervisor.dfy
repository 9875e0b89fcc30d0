/** The reconnect loop of `EventStream.run`. Each call of `start` either
    returns normally (the stream ended; `true`) or raises (connection error,
    a non-200 status, or an exception from parsing or handling a record;
    `false`). A counter starts at `max_retries`, is reset on every normal
    return, is decremented on every failure, and the loop gives up when a
    failure brings it to exactly 0. The infinite loop is modelled over the
    finite sequence of outcomes the environment supplies. */
module Supervisor {

  /** The number of failed attempts at the end of the history. */
  function TrailingFailures(outcomes: seq<bool>): (n: nat)
    ensures n <= |outcomes|
    ensures forall i :: |outcomes| - n <= i < |outcomes| ==> !outcomes[i]
    ensures n < |outcomes| ==> outcomes[|outcomes| - n - 1]
  {
    if outcomes == [] || outcomes[|outcomes| - 1] then 0
    else 1 + TrailingFailures(outcomes[..|outcomes| - 1])
  }

  /** After the first `k` attempts, the loop has just given up: the last
      `maxRetries` attempts, and no more, failed since the last success. */
  predicate GivesUpAfter(maxRetries: int, outcomes: seq<bool>, k: nat) {
    k <= |outcomes| && 0 < maxRetries == TrailingFailures(outcomes[..k])
  }

  /** `EventStream.run`: `attempts` calls of `start` are made; the loop gives
      up exactly at the first point where `maxRetries` consecutive attempts
      have failed, and otherwise consumes every outcome. `retries` is the
      counter when the loop stops. */
  method Run(maxRetries: int, outcomes: seq<bool>) returns (attempts: nat, gaveUp: bool, retries: int)
    ensures attempts <= |outcomes|
    ensures gaveUp <==> GivesUpAfter(maxRetries, outcomes, attempts)
    ensures forall k :: 0 <= k < attempts ==> !GivesUpAfter(maxRetries, outcomes, k)
    ensures !gaveUp ==> attempts == |outcomes|
    ensures maxRetries <= 0 ==> !gaveUp
    ensures gaveUp ==> 0 < attempts && !outcomes[attempts - 1] && retries == 0
    ensures retries == maxRetries - TrailingFailures(outcomes[..attempts])
  {
    retries := maxRetries;
    attempts := 0;
    gaveUp := false;
    while attempts < |outcomes|
      invariant 0 <= attempts <= |outcomes|
      invariant retries == maxRetries - TrailingFailures(outcomes[..attempts])
      invariant forall k :: 0 <= k <= attempts ==> !GivesUpAfter(maxRetries, outcomes, k)
    {
      var ok := outcomes[attempts];
      assert outcomes[..attempts + 1][..attempts] == outcomes[..attempts];
      attempts := attempts + 1;
      if ok {
        retries := maxRetries;
      } else {
        retries := retries - 1;
        if retries == 0 {
          gaveUp := true;
          return;
        }
      }
    }
  }

  /** One more attempt: a success clears the failure run, a failure extends
      it by one. */
  lemma TrailingFailuresStep(history: seq<bool>, ok: bool)
    ensures TrailingFailures(history + [ok]) == if ok then 0 else TrailingFailures(history) + 1
  {
    assert (history + [ok])[..|history|] == history;
  }

  /** With `maxRetries >= 1`, once a success (or the start) is followed by
      `maxRetries` failures, the loop gives up after exactly those
      `maxRetries` further attempts, and at no point in between. */
  lemma {:induction false} GivesUpAfterMaxFailures(maxRetries: int, history: seq<bool>, later: seq<bool>)
    requires maxRetries >= 1
    requires history == [] || history[|history| - 1]
    requires |later| >= maxRetries
    requires forall i :: 0 <= i < maxRetries ==> !later[i]
    ensures GivesUpAfter(maxRetries, history + later, |history| + maxRetries)
    ensures forall j :: |history| <= j < |history| + maxRetries ==> !GivesUpAfter(maxRetries, history + later, j)
  {
    var all := history + later;
    forall j | |history| <= j <= |history| + maxRetries
      ensures TrailingFailures(all[..j]) == j - |history|
    {
      FailureRun(history, later, j - |history|);
    }
  }

  lemma {:induction false} FailureRun(history: seq<bool>, later: seq<bool>, j: nat)
    requires history == [] || history[|history| - 1]
    requires j <= |later|
    requires forall i :: 0 <= i < j ==> !later[i]
    ensures TrailingFailures((history + later)[..|history| + j]) == j
  {
    var all := history + later;
    if j == 0 {
      assert all[..|history|] == history;
    } else {
      FailureRun(history, later, j - 1);
      var before := all[..|history| + j - 1];
      assert all[|history| + j - 1] == later[j - 1];
      assert all[..|history| + j] == before + [false];
      TrailingFailuresStep(before, false);
    }
  }
}
