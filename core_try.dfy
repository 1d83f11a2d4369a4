// Try of Micron.Core (src/Micron.Core/Try.cs): the same normalisation as the
// Micron revision, with one error entry per caught exception, but ToAsync has
// no cancellation token and always invokes the function.
module MicronCoreTry {
  import opened Common
  import MT = MicronTry

  /** Try.To<T>(function, logger). */
  function To<T>(run: Traced<T>, logger: Logger): (r: Traced<T>)
    ensures r == MT.To(run, logger)
  {
    if run.0.Ok? then run
    else (Fail(Micron(Unhandled, Some(run.0.error))), run.1 + Emit(logger, Log(Error, MT.Message, [Failure(run.0.error)])))
  }

  /** Try.ToAsync<T>(function, logger): no pre-check, so it behaves as the
      Micron revision called with a token that is never cancelled. */
  function ToAsync<T>(run: Traced<T>, logger: Logger): (r: Traced<T>)
    ensures r == MT.ToAsync(false, run, logger)
  {
    To(run, logger)
  }

  /** Whatever the function did, the Core ToAsync reports its failure wrapped:
      a cancellation the function raises comes back as a MicronException,
      where the Micron revision's pre-check lets OperationCanceledException
      through unwrapped. */
  lemma CancellationIsWrapped<T>(run: Traced<T>, logger: Logger)
    requires run.0 == Fail(OperationCanceled)
    ensures ToAsync(run, logger).0 == Fail(Wrapped(OperationCanceled))
    ensures MT.ToAsync(true, run, logger).0 == Fail(OperationCanceled)
  {
  }
}
