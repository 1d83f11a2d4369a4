// Try of Micron (src/Micron/Try.cs): runs a function and turns any exception
// it throws into a MicronException whose cause is the original, after one
// error entry on the logger. A call is modelled by what it did: its outcome
// and the events it caused (a Traced value).
module MicronTry {
  import opened Common

  const Message := "An unhandled exception occurred."

  /** Try.To<T>(function, logger), where `run` is what calling the function did. */
  function To<T>(run: Traced<T>, logger: Logger): (r: Traced<T>)
    ensures r.0.Ok? <==> run.0.Ok?
    ensures run.0.Ok? ==> r == run
    ensures run.0.Fail? ==> r.0.error.Micron? && r.0.error.inner == Some(run.0.error)
                            && Depth(r.0.error) == Depth(run.0.error) + 1
    ensures Unwrapped(r.0) == run.0
    ensures |r.1| >= |run.1| && r.1[..|run.1|] == run.1
    ensures Calls(r.1) == Calls(run.1)
    ensures |Filter(r.1, IsErrorLog)| == |Filter(run.1, IsErrorLog)| + (if run.0.Fail? && logger.Recording? then 1 else 0)
  {
    if run.0.Ok? then run
    else
      var entry := Emit(logger, Log(Error, Message, [Failure(run.0.error)]));
      FilterAppend(run.1, entry, IsCall);
      FilterAppend(run.1, entry, IsErrorLog);
      assert (run.1 + entry)[..|run.1|] == run.1;
      (Fail(Wrapped(run.0.error)), run.1 + entry)
  }

  /** Try.ToAsync<T>(function, logger, ct): a token cancelled on entry throws
      before the try, so the function is not invoked and the cancellation is
      not wrapped; otherwise the awaited function is handled as To does. */
  function ToAsync<T>(requested: bool, run: Traced<T>, logger: Logger): (r: Traced<T>)
    ensures requested ==> r == (Fail(OperationCanceled), [])
    ensures !requested ==> r == To(run, logger)
  {
    if requested then (Fail(OperationCanceled), []) else To(run, logger)
  }

  /** A started Task<T>: the value it completes with or the exception it faults with. */
  datatype Task<T> = Task(outcome: Result<T>)

  /** `await` on a call that returned a Task: its outcome. */
  function Await<T>(started: Traced<Task<T>>): (r: Traced<T>)
    ensures r.1 == started.1
    ensures started.0.Fail? ==> r.0 == Fail(started.0.error)
    ensures started.0.Ok? ==> r.0 == started.0.value.outcome
  {
    (if started.0.Fail? then Fail(started.0.error) else started.0.value.outcome, started.1)
  }

  /** `await Try.To(exec, logger)` where exec is an `async` method: calling exec
      stores every exception it raises in the task it returns, so To sees a
      normal return, and awaiting the task rethrows the exception as raised:
      nothing is wrapped and nothing is logged. */
  function ToOverAsync<T>(run: Traced<T>, logger: Logger): (r: Traced<T>)
    ensures r == run
  {
    Await(To((Ok(Task(run.0)), run.1), logger))
  }

  /** ToAsync wraps every failure of a function it invokes; the synchronous To
      handed an async method wraps none, so the two disagree exactly on failures. */
  lemma ToOverAsyncMissesFaults<T>(run: Traced<T>, logger: Logger)
    ensures ToOverAsync(run, logger) == ToAsync(false, run, logger) <==> run.0.Ok?
  {
    if run.0.Fail? {
      assert ToAsync(false, run, logger).0 == Fail(Wrapped(run.0.error));
      assert Wrapped(run.0.error) != run.0.error by {
        assert Depth(Wrapped(run.0.error)) == Depth(run.0.error) + 1;
      }
    }
  }
}
