/**
 * The retry policy scripts/manage_issues.js wraps around every `gh` call, and the label cache
 * that `ensureLabelExists` keeps up to date. The command is an oracle: `run(k)` is what the
 * `k`-th attempt (counting from 1) yields. Waits are returned instead of slept.
 */
module GitHubRetry {
  import opened Wrappers
  import opened JsString
  import opened SeqUtil

  const RATE_LIMIT_DELAY: nat := 10000
  const MAX_RETRIES: nat := 10

  /** What one run of a shell command gives: its standard output, or the message of the error
      it was rejected with. */
  datatype CmdOutcome = Done(stdout: string) | Failed(message: string)

  /** How `retryGitHubCommand` settles: resolved with a command's output, rejected with an
      error, or resolved with `undefined` when the loop never runs (fewer than one retry). */
  datatype RetryResult = Resolved(stdout: string) | Thrown(message: string) | Undefined

  /** The rate-limit classifier: the message mentions a rate limit or an over-quick submission.
      Its third test, `API rate limit`, can never decide the outcome. */
  function IsRateLimit(message: string): (r: bool)
    ensures r <==> Includes(message, "was submitted too quickly") || Includes(message, "rate limit")
  {
    assert "API rate limit" == "API " + "rate limit";
    IncludesRight(message, "API ", "rate limit");
    Includes(message, "was submitted too quickly")
      || Includes(message, "rate limit")
      || Includes(message, "API rate limit")
  }

  /** Text that contains `a + b` contains `b`. */
  lemma IncludesRight(s: string, a: string, b: string)
    ensures Includes(s, a + b) ==> Includes(s, b)
  {
    if Includes(s, a + b) {
      var p :| OccursAt(s, a + b, p);
      assert s[p + |a|..p + |a| + |b|] == (a + b)[|a|..];
      assert OccursAt(s, b, p + |a|);
    }
  }

  /** An attempt that failed with a rate-limit error. */
  predicate RateLimited(o: CmdOutcome) {
    o.Failed? && IsRateLimit(o.message)
  }

  /** `2^n`. */
  function Pow2(n: nat): (r: nat)
    ensures r >= 1
  {
    if n == 0 then 1 else 2 * Pow2(n - 1)
  }

  /** The wait after the rate-limited attempt `attempt`: `RATE_LIMIT_DELAY * 2^(attempt - 1)`. */
  function Backoff(attempt: nat): nat
    requires attempt >= 1
  {
    RATE_LIMIT_DELAY * Pow2(attempt - 1)
  }

  /** The first wait is `RATE_LIMIT_DELAY` and each later wait is twice the one before. */
  lemma BackoffDoubles(attempt: nat)
    requires attempt >= 1
    ensures Backoff(1) == RATE_LIMIT_DELAY
    ensures Backoff(attempt + 1) == 2 * Backoff(attempt)
    ensures Backoff(attempt + 1) > Backoff(attempt)
  {
  }

  /** The waits taken before attempts `2 .. n + 1`, in order. */
  function Schedule(n: nat): (ds: seq<nat>)
    ensures |ds| == n
    ensures forall i :: 0 <= i < n ==> ds[i] == Backoff(i + 1)
  {
    if n == 0 then [] else Schedule(n - 1) + [Backoff(n)]
  }

  function Sum(xs: seq<nat>): nat {
    if xs == [] then 0 else Sum(xs[..|xs| - 1]) + xs[|xs| - 1]
  }

  /** After `n` rate-limited attempts the script has waited `RATE_LIMIT_DELAY * (2^n - 1)`. */
  lemma {:induction false} ScheduleTotal(n: nat)
    ensures Sum(Schedule(n)) == RATE_LIMIT_DELAY * (Pow2(n) - 1)
  {
    if n > 0 {
      ScheduleTotal(n - 1);
      var ds := Schedule(n);
      assert ds[..|ds| - 1] == Schedule(n - 1);
    }
  }

  /** How the loop settles when it is about to make attempt `attempt`: an independent,
      recursive reading of the same policy. */
  function SettleFrom(run: nat -> CmdOutcome, maxRetries: int, attempt: nat): RetryResult
    decreases maxRetries - attempt
  {
    if attempt > maxRetries then Undefined
    else match run(attempt)
      case Done(out) => Resolved(out)
      case Failed(msg) =>
        if IsRateLimit(msg) && attempt < maxRetries then SettleFrom(run, maxRetries, attempt + 1)
        else Thrown(msg)
  }

  function Settle(run: nat -> CmdOutcome, maxRetries: int): RetryResult {
    SettleFrom(run, maxRetries, 1)
  }

  /** With at least one retry allowed the command never resolves to `undefined`. */
  lemma {:induction false} SettleDefined(run: nat -> CmdOutcome, maxRetries: int, attempt: nat)
    requires 1 <= attempt <= maxRetries
    ensures SettleFrom(run, maxRetries, attempt) != Undefined
    decreases maxRetries - attempt
  {
    if run(attempt).Failed? && IsRateLimit(run(attempt).message) && attempt < maxRetries {
      SettleDefined(run, maxRetries, attempt + 1);
    }
  }

  /**
   * `retryGitHubCommand(command, maxRetries)`: runs the command until an attempt succeeds, an
   * attempt fails with an error that is not a rate limit, or the attempts are used up; after a
   * rate-limited attempt `k` that is not the last it waits `Backoff(k)`. `attempts` is how many
   * times the command ran and `delays` the waits, in order.
   */
  method RetryGitHubCommand(run: nat -> CmdOutcome, maxRetries: int)
    returns (result: RetryResult, attempts: nat, delays: seq<nat>)
    ensures result == Settle(run, maxRetries)
    ensures result == Undefined <==> maxRetries < 1
    ensures result == Undefined ==> attempts == 0 && delays == []
    ensures result != Undefined ==> 1 <= attempts <= maxRetries && delays == Schedule(attempts - 1)
    ensures forall k :: 1 <= k < attempts ==> RateLimited(run(k))
    ensures result.Resolved? ==> run(attempts) == Done(result.stdout)
    ensures result.Thrown? ==> run(attempts) == Failed(result.message)
    ensures result.Thrown? ==> !IsRateLimit(result.message) || attempts == maxRetries
  {
    attempts := 0;
    delays := [];
    var attempt := 1;
    while attempt <= maxRetries
      invariant 1 <= attempt && attempts == attempt - 1
      invariant attempt == 1 || attempt <= maxRetries
      invariant delays == Schedule(attempt - 1)
      invariant forall k :: 1 <= k < attempt ==> RateLimited(run(k))
      invariant SettleFrom(run, maxRetries, attempt) == Settle(run, maxRetries)
      decreases maxRetries - attempt
    {
      attempts := attempt;
      match run(attempt) {
        case Done(out) =>
          return Resolved(out), attempts, delays;
        case Failed(msg) =>
          if IsRateLimit(msg) && attempt < maxRetries {
            delays := delays + [Backoff(attempt)];
            attempt := attempt + 1;
            continue;
          }
          return Thrown(msg), attempts, delays;
      }
    }
    result := Undefined;
  }

  /**
   * The array of label names the script knows to exist. `ensureLabelExists` appends to it in
   * place after it has created a label.
   */
  class LabelCache {
    var names: seq<string>

    constructor(initial: seq<string>)
      ensures names == initial
    {
      names := initial;
    }

    /**
     * `ensureLabelExists(label, ...)`: a known label issues no command; otherwise the label is
     * created through the retry policy and recorded only when that succeeded. Errors are
     * swallowed. `outcome` is how the create command settled, `None` when none was issued.
     */
    method EnsureLabelExists(name: string, create: nat -> CmdOutcome)
      returns (outcome: Option<RetryResult>)
      modifies this
      ensures outcome.None? <==> name in old(names)
      ensures outcome.Some? ==> outcome.value == Settle(create, MAX_RETRIES)
      ensures outcome.Some? ==> !outcome.value.Undefined?
      ensures names == old(names) + (if outcome.Some? && outcome.value.Resolved? then [name] else [])
      ensures name in names <==> name in old(names) || (outcome.Some? && outcome.value.Resolved?)
      ensures NoDuplicates(old(names)) ==> NoDuplicates(names)
    {
      if name !in names {
        var r, attempts, delays := RetryGitHubCommand(create, MAX_RETRIES);
        outcome := Some(r);
        if r.Resolved? {
          names := names + [name];
        }
      } else {
        outcome := None;
      }
    }
  }
}
