/**
 * The backoff fetcher (`fetchConversation`): tries one request up to `maxAttempts` times,
 * sleeping `10000 * 2^attempt` ms after failed attempt number `attempt` (counted from 1).
 *
 * The network is the parameter `outcome`: `outcome(a)` is the answer to attempt `a`, `None`
 * when that attempt failed (an error response or a thrown error). Sleeps are recorded as
 * their durations, in order.
 */
module Retry {
  import opened Wrappers
  import opened Strings

  const InitialBackoff: nat := 10000
  const BackoffMultiplier: nat := 2
  /** The `maxAttempts` default the harvester relies on. */
  const DefaultMaxAttempts: int := 3

  function Pow(base: nat, exponent: nat): (r: nat)
    ensures base >= 1 ==> r >= 1
  {
    if exponent == 0 then 1 else base * Pow(base, exponent - 1)
  }

  /** The sleep after failed attempt `attempt`: `INITIAL_BACKOFF * Math.pow(BACKOFF_MULTIPLIER, attempt)`. */
  function Backoff(attempt: nat): (r: nat)
    ensures r >= InitialBackoff
  {
    InitialBackoff * Pow(BackoffMultiplier, attempt)
  }

  /** The terminal error; it carries `maxAttempts`. */
  datatype Exhausted = Exhausted(maxAttempts: int)

  /** The message of the error thrown when every attempt failed. */
  function ErrorMessage(e: Exhausted): string
  {
    "Failed after " + IntToDecimal(e.maxAttempts) + " attempts."
  }

  /** What a call returns or throws, and the sleeps it performed. */
  datatype Fetched<R> = Fetched(outcome: Result<R, Exhausted>, delays: seq<nat>)

  /**
   * `fetchConversation(token, id, maxAttempts, attempt)`. The attempts made are
   * `attempt .. attempt + |delays|`; all but the last failed, the last one decides, and
   * the call gives up only once `attempt + |delays|` reaches `maxAttempts`.
   */
  function FetchConversation<R>(outcome: nat -> Option<R>, maxAttempts: int, attempt: nat): (r: Fetched<R>)
    ensures attempt < maxAttempts ==> |r.delays| <= maxAttempts - attempt
    ensures attempt >= maxAttempts ==> |r.delays| == 0
    ensures forall k :: 0 <= k < |r.delays| ==> r.delays[k] == Backoff(attempt + k)
    ensures forall a :: attempt <= a < attempt + |r.delays| ==> outcome(a).None?
    ensures r.outcome.Success? ==> outcome(attempt + |r.delays|) == Some(r.outcome.value)
    ensures r.outcome.Failure? ==>
              && outcome(attempt + |r.delays|).None?
              && attempt + |r.delays| >= maxAttempts
              && r.outcome.error == Exhausted(maxAttempts)
    decreases if attempt < maxAttempts then maxAttempts - attempt else 0
  {
    match outcome(attempt)
    case Some(response) => Fetched(Success(response), [])
    case None =>
      if attempt >= maxAttempts then Fetched(Failure(Exhausted(maxAttempts)), [])
      else
        var rest := FetchConversation(outcome, maxAttempts, attempt + 1);
        Fetched(rest.outcome, [Backoff(attempt)] + rest.delays)
  }

  /** The delays slept before the first `n` retries of a call starting at attempt 1: 20000, 40000, ... */
  function RetryDelays(n: nat): (delays: seq<nat>)
    ensures |delays| == n
  {
    seq(n, k requires 0 <= k < n => Backoff(k + 1))
  }

  /** Success on attempt `j` (every earlier one failed, `j` within the limit) returns that answer after `j - 1` sleeps. */
  lemma SucceedsOnAttempt<R>(outcome: nat -> Option<R>, maxAttempts: int, j: nat)
    requires 1 <= j && (j == 1 || j <= maxAttempts)
    requires forall a :: 1 <= a < j ==> outcome(a).None?
    requires outcome(j).Some?
    ensures FetchConversation(outcome, maxAttempts, 1) == Fetched(Success(outcome(j).value), RetryDelays(j - 1))
  {
    var r := FetchConversation(outcome, maxAttempts, 1);
    var last := 1 + |r.delays|;
    assert last == j;
    assert r.delays == RetryDelays(j - 1);
  }

  /**
   * When every allowed attempt fails, the call throws `Failed after m attempts.` after
   * `m - 1` sleeps (one attempt and no sleep when `m <= 1`).
   */
  lemma ExhaustsAfterAllAttempts<R>(outcome: nat -> Option<R>, maxAttempts: int)
    requires forall a :: 1 <= a <= maxAttempts ==> outcome(a).None?
    requires outcome(1).None?
    ensures FetchConversation(outcome, maxAttempts, 1) ==
            Fetched(Failure(Exhausted(maxAttempts)), RetryDelays(if maxAttempts <= 1 then 0 else maxAttempts - 1))
    ensures ErrorMessage(FetchConversation(outcome, maxAttempts, 1).outcome.error) ==
            "Failed after " + IntToDecimal(maxAttempts) + " attempts."
  {
    var r := FetchConversation(outcome, maxAttempts, 1);
    var n := if maxAttempts <= 1 then 0 else maxAttempts - 1;
    assert |r.delays| == n;
    assert r.delays == RetryDelays(n);
  }

  /** At most `max(m, 1)` attempts are made from attempt 1, so at most `m - 1` sleeps. */
  lemma AttemptsBounded<R>(outcome: nat -> Option<R>, maxAttempts: int)
    ensures 1 + |FetchConversation(outcome, maxAttempts, 1).delays| <= if maxAttempts < 1 then 1 else maxAttempts
  {
  }

  lemma {:induction false} BackoffDoubles(attempt: nat)
    ensures Backoff(attempt + 1) == 2 * Backoff(attempt)
  {
    assert Pow(2, attempt + 1) == 2 * Pow(2, attempt);
  }

  /** Failing twice then succeeding on attempt 3 sleeps 20 s then 40 s; always failing with two attempts sleeps 20 s once. */
  lemma RetryExamples<R>(outcome: nat -> Option<R>, response: R)
    requires outcome(1).None? && outcome(2).None? && outcome(3) == Some(response)
    ensures FetchConversation(outcome, 3, 1) == Fetched(Success(response), [20000, 40000])
    ensures FetchConversation(outcome, 2, 1) == Fetched(Failure(Exhausted(2)), [20000])
  {
    assert Pow(2, 2) == 4;
  }
}
