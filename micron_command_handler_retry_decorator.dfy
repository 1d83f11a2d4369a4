// MicronCommandHandlerRetryDecorator of Micron: the MicronCommand operations
// are retried exactly as DbCommandHandlerRetryDecorator retries the DbCommand
// ones (same attempt entries, same token checks, the token dropped by
// ScalarAsync and StringAsync), so they are modelled by that module's
// members, which pass each lambda the count of earlier attempts as its attempt
// argument. Batch adds one thing: the whole batch is the unit of retry, and
// BatchAsync neither checks nor forwards its token.
module MicronCommandHandlerRetryDecorator {
  import opened Common
  import R = MicronRetryHandler
  import Rt = DbCommandHandlerRetryDecorator

  /** Batch(commands, batchSize): `inner(a)` is what the inner handler's Batch
      of all the commands does on attempt a. The result is what the retry
      handler makes of the inner batches' outcomes, and each attempt runs the
      inner batch once, in attempt order. */
  function Batch(h: R.RetryHandler, inner: nat -> Traced<int>): (r: Traced<int>)
    ensures var run := R.Attempts(h, Rt.Outcomes(inner), 0);
      r.0 == run.result && Calls(r.1) == Calls(Rt.Trace(inner, run.invocations))
  {
    Rt.RetriedIsInnerRetried(h, inner);
    Rt.Retried(h, inner)
  }

  /** BatchAsync(commands, batchSize, ct): retryHandler.ExecuteAsync of a
      lambda that has no cancellation check and calls the inner BatchAsync
      without the token, so the token plays no part. */
  function BatchAsync(h: R.RetryHandler, ct: Token, inner: nat -> Traced<int>): (r: Traced<int>)
    ensures var run := R.Attempts(h, Rt.Outcomes(inner), 0, true);
      r.0 == run.result && Calls(r.1) == Calls(Rt.Trace(inner, run.invocations))
  {
    Rt.RunIsInnerRetried(h, inner, true);
    Rt.RunAttempts(h, Rt.EachAttempt(inner), true)
  }

  /** Every attempt runs the whole batch again from its first command, and a
      cancelled token stops nothing: with the token cancelled before every
      attempt, BatchAsync still calls the inner handler on each attempt the
      retry handler makes, where ExecuteAsync calls it on none. */
  lemma BatchAsyncIgnoresCancellation(h: R.RetryHandler, ct: Token, inner: nat -> Traced<int>,
                                      single: (nat, Token) -> Traced<int>)
    requires forall a: nat :: ct(a)
    ensures var run := R.Attempts(h, Rt.Outcomes(inner), 0, true);
      Calls(BatchAsync(h, ct, inner).1) == Calls(Rt.Trace(inner, run.invocations))
    ensures Rt.ExecuteAsync(h, ct, single).1 == []
  {
    Rt.CancelledNeverReachesInner(h, ct, Rt.WithToken(single, ct));
  }
}
