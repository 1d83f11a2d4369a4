// Try of Micron.SqlClient (src/Micron.SqlClient/Try.cs): exceptions become a
// MicronException with the original as cause, and nothing is logged.
module SqlClientTry {
  import opened Common
  import MT = MicronTry

  /** Try.To<T>(function): the Micron revision with a logger that drops
      everything, so the trace is the function's own. */
  function To<T>(run: Traced<T>): (r: Traced<T>)
    ensures r == MT.To(run, Silent)
    ensures r.1 == run.1 && Unwrapped(r.0) == run.0
  {
    if run.0.Ok? then run
    else
      assert run.1 + Emit(Silent, Log(Error, MT.Message, [Failure(run.0.error)])) == run.1;
      (Fail(Micron(Unhandled, Some(run.0.error))), run.1)
  }

  /** Try.ToAsync<T>(function): awaited, then handled as To. */
  function ToAsync<T>(run: Traced<T>): (r: Traced<T>)
    ensures r == To(run)
  {
    if run.0.Ok? then run else (Fail(Micron(Unhandled, Some(run.0.error))), run.1)
  }
}
