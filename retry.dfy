/**
 * `retry_on_stale_element(max_attempts)`: call the wrapped operation again after a
 * stale-element failure, at most `max_attempts` times in all.
 */
module Retry {
  import opened Wrappers
  import opened Browser

  /** The `max_attempts` every decorated call site of the checker uses. */
  const MaxStaleAttempts := 3

  /** What the wrapper does when the operation's attempts from number `k` on answer
      as `op` says: `Done(Some(v))` returned `v`, `Done(None)` returned `None`,
      `Stale` re-raised the stale error, `Failed` let another exception through. */
  function RetryFrom<T>(maxAttempts: int, op: nat -> Outcome<T>, k: nat): Outcome<Option<T>>
    decreases maxAttempts - k
  {
    if k >= maxAttempts then Done(None)
    else
      match op(k)
      case Done(v) => Done(Some(v))
      case Failed => Failed
      case Stale => if k + 1 >= maxAttempts then Stale else RetryFrom(maxAttempts, op, k + 1)
  }

  /** The decorated call, attempt 0 first. */
  function Retried<T>(maxAttempts: int, op: nat -> Outcome<T>): Outcome<Option<T>>
  {
    RetryFrom(maxAttempts, op, 0)
  }

  /** The decorator's `wrapper`: its `while attempts < max_attempts` loop. `op(k)` is
      what attempt number `k` of the wrapped function does; `calls` counts the attempts. */
  method RetryOnStale<T>(maxAttempts: int, op: nat -> Outcome<T>) returns (r: Outcome<Option<T>>, calls: nat)
    ensures r == Retried(maxAttempts, op)
    ensures maxAttempts <= 0 ==> r == Done(None) && calls == 0
    ensures maxAttempts > 0 ==> 1 <= calls <= maxAttempts
    ensures forall k :: 0 <= k < calls - 1 ==> op(k).Stale?
    ensures maxAttempts > 0 ==> match op(calls - 1)
      case Done(v) => r == Done(Some(v))
      case Failed => r == Failed
      case Stale => r == Stale && calls == maxAttempts
  {
    var attempts: nat := 0;
    while attempts < maxAttempts
      invariant maxAttempts > 0 ==> attempts < maxAttempts
      invariant forall k :: 0 <= k < attempts ==> op(k).Stale?
      invariant Retried(maxAttempts, op) == RetryFrom(maxAttempts, op, attempts)
      decreases maxAttempts - attempts
    {
      var outcome := op(attempts);
      match outcome {
        case Done(v) =>
          return Done(Some(v)), attempts + 1;
        case Failed =>
          return Failed, attempts + 1;
        case Stale =>
          attempts := attempts + 1;
          if attempts >= maxAttempts {
            return Stale, attempts;
          }
      }
    }
    return Done(None), 0;
  }

  /** A call that answers the same way on every attempt: no call site of the checker
      changes the page between attempts. */
  function Always<T>(o: Outcome<T>): (op: nat -> Outcome<T>)
    ensures forall k :: op(k) == o
  {
    k => o
  }

  /** An operation whose first attempt does not go stale runs once and its result
      passes through unchanged. */
  lemma NotStalePassesThrough<T>(maxAttempts: int, op: nat -> Outcome<T>)
    requires maxAttempts >= 1 && !op(0).Stale?
    ensures op(0).Done? ==> Retried(maxAttempts, op) == Done(Some(op(0).value))
    ensures op(0).Failed? ==> Retried(maxAttempts, op).Failed?
  {
  }

  /** Only `maxAttempts` stale failures in a row make the stale error escape. */
  lemma {:induction false} StaleEscapesOnlyAfterAllAttempts<T>(maxAttempts: int, op: nat -> Outcome<T>, k: nat)
    requires RetryFrom(maxAttempts, op, k) == Stale
    ensures k < maxAttempts
    ensures forall j :: k <= j < maxAttempts ==> op(j).Stale?
    decreases maxAttempts - k
  {
    if k + 1 < maxAttempts {
      StaleEscapesOnlyAfterAllAttempts(maxAttempts, op, k + 1);
    }
  }
}
