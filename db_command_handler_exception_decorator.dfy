// DbCommandHandlerExceptionDecorator of Micron: every operation runs a local
// `exec` closure inside Try, so whatever it throws, including an exception of
// the optional configuration pipeline, comes back as a MicronException. The
// closure logs, passes the command through the pipeline, calls the inner
// handler and logs again. The async operations other than TransactionAsync use
// Try.ToAsync without a token, which behaves as Try.To (MicronTry.ToAsync), so
// the members below model both forms.
module DbCommandHandlerExceptionDecorator {
  import opened Common
  import MT = MicronTry
  import L = DbCommandHandlerLoggingDecorator
  import P = DbCommandHandlerPipelineDecorator

  const Configuring := "Configuring command {CommandText}."
  const ConfiguredCommand := "Configured command {CommandText}."

  /** ExecuteCommandConfigurationPipeline(command): no pipeline hands the
      command back untouched and logs nothing; otherwise the pipeline is
      called once, between a debug and an information entry (the entries pass
      no argument for their placeholder). */
  function ConfigurePipeline(pipeline: Option<Configurer>, command: DbCommand): (r: Traced<DbCommand>)
    ensures pipeline.None? ==> r == (Ok(command), [])
    ensures pipeline.Some? ==> r.0 == pipeline.value(command) && Calls(r.1) == [Configured(command.text)]
  {
    match pipeline
    case None => (Ok(command), [])
    case Some(configure) =>
      var configured := configure(command);
      var after := if configured.Ok? then [Log(Information, ConfiguredCommand, [])] else [];
      FilterAppend([Log(Debug, Configuring, []), Configured(command.text)], after, IsCall);
      assert Filter([Log(Debug, Configuring, []), Configured(command.text)], IsCall) == [Configured(command.text)] by {
        assert [Log(Debug, Configuring, []), Configured(command.text)][1..] == [Configured(command.text)];
        assert Filter([Configured(command.text)], IsCall) == [Configured(command.text)] + Filter([], IsCall);
      }
      assert Filter(after, IsCall) == [] by {
        if configured.Ok? {
          assert Filter(after, IsCall) == Filter(after[1..], IsCall);
        }
      }
      (configured, [Log(Debug, Configuring, []), Configured(command.text)] + after)
  }

  /** The exec closure of Execute, Read, Scalar and String: the `before`
      entry, the pipeline, the inner call on the command the pipeline
      returned, and an information entry `done` whose arguments `doneArgs`
      takes from that command and the value. */
  function Exec<T>(pipeline: Option<Configurer>, inner: DbCommand -> Traced<T>, command: DbCommand,
                   before: Event, done: string, doneArgs: (DbCommand, T) -> seq<Arg>): Traced<T>
  {
    var configured := ConfigurePipeline(pipeline, command);
    if configured.0.Fail? then (Fail(configured.0.error), [before] + configured.1)
    else
      var result := inner(configured.0.value);
      (result.0, [before] + configured.1 + result.1
                 + (if result.0.Ok? then [Log(Information, done, doneArgs(configured.0.value, result.0.value))] else []))
  }

  /** Try.To(exec, logger) for a single-command operation. */
  function Single<T>(pipeline: Option<Configurer>, inner: DbCommand -> Traced<T>, command: DbCommand,
                     before: Event, done: string, doneArgs: (DbCommand, T) -> seq<Arg>): (r: Traced<T>)
    ensures Unwrapped(r.0) == Exec(pipeline, inner, command, before, done, doneArgs).0
    ensures r.0.Fail? ==> r.0.error.Micron? && Depth(r.0.error) >= 1
    ensures pipeline.None? && inner(command).0.Ok? ==> r.0 == inner(command).0
    ensures pipeline.None? && inner(command).0.Fail? ==> r.0 == Fail(Wrapped(inner(command).0.error))
    ensures pipeline.None? && before.Log? ==> Calls(r.1) == Calls(inner(command).1)
  {
    var run := Exec(pipeline, inner, command, before, done, doneArgs);
    assert pipeline.None? && before.Log? ==> Calls(run.1) == Calls(inner(command).1) by {
      if pipeline.None? && before.Log? {
        var result := inner(command);
        var tail: seq<Event> := if result.0.Ok? then [Log(Information, done, doneArgs(command, result.0.value))] else [];
        assert run == (result.0, [before] + result.1 + tail) by {
          assert ConfigurePipeline(None, command) == (Ok(command), []);
          assert [before] + [] == [before];
        }
        CallsBetweenLogs([before], result.1, tail);
      }
    }
    MT.To(run, Recording)
  }

  /** Execute(command): the information entry carries the configured
      command's text and the affected count. */
  function Execute(pipeline: Option<Configurer>, inner: DbCommand -> Traced<int>, command: DbCommand): (r: Traced<int>)
    ensures r.0.Fail? ==> r.0.error.Micron? && Depth(r.0.error) >= 1
    ensures pipeline.None? && inner(command).0.Ok? ==> r.0 == inner(command).0
    ensures pipeline.None? && inner(command).0.Fail? ==> r.0 == Fail(Wrapped(inner(command).0.error))
    ensures pipeline.None? ==> Calls(r.1) == Calls(inner(command).1)
  {
    Single(pipeline, inner, command, Log(Debug, L.Executing, [Text(command.text)]),
           L.Executed, (c: DbCommand, affected: int) => [Text(c.text), Num(affected)])
  }

  /** Read(command, callback, behavior): the information entry has no arguments. */
  function Read(pipeline: Option<Configurer>, inner: DbCommand -> Traced<Unit>, command: DbCommand,
      behavior: int): (r: Traced<Unit>)
    ensures r.0.Fail? ==> r.0.error.Micron? && Depth(r.0.error) >= 1
    ensures pipeline.None? && inner(command).0.Ok? ==> r.0 == inner(command).0
    ensures pipeline.None? && inner(command).0.Fail? ==> r.0 == Fail(Wrapped(inner(command).0.error))
    ensures pipeline.None? ==> Calls(r.1) == Calls(inner(command).1)
  {
    Single(pipeline, inner, command, Log(Debug, L.Reading, [Text(command.text), Num(behavior)]),
           L.ReadFrom, (c: DbCommand, u: Unit) => [])
  }

  /** Scalar<T>(command). */
  function Scalar<T>(pipeline: Option<Configurer>, inner: DbCommand -> Traced<T>, command: DbCommand): (r: Traced<T>)
    ensures r.0.Fail? ==> r.0.error.Micron? && Depth(r.0.error) >= 1
    ensures pipeline.None? && inner(command).0.Ok? ==> r.0 == inner(command).0
    ensures pipeline.None? && inner(command).0.Fail? ==> r.0 == Fail(Wrapped(inner(command).0.error))
    ensures pipeline.None? ==> Calls(r.1) == Calls(inner(command).1)
  {
    Single(pipeline, inner, command, Log(Debug, L.RetrievingScalar, [Text(command.text)]),
           L.RetrievedScalar, (c: DbCommand, v: T) => [])
  }

  /** String(command). */
  function String(pipeline: Option<Configurer>, inner: DbCommand -> Traced<string>, command: DbCommand): (r: Traced<string>)
    ensures r.0.Fail? ==> r.0.error.Micron? && Depth(r.0.error) >= 1
    ensures pipeline.None? && inner(command).0.Ok? ==> r.0 == inner(command).0
    ensures pipeline.None? && inner(command).0.Fail? ==> r.0 == Fail(Wrapped(inner(command).0.error))
    ensures pipeline.None? ==> Calls(r.1) == Calls(inner(command).1)
  {
    Single(pipeline, inner, command, Log(Debug, L.RetrievingString, [Text(command.text)]),
           L.RetrievedString, (c: DbCommand, v: string) => [])
  }

  /** The pipeline as the step of the `Select` over a command array. */
  function PipelineStep(pipeline: Option<Configurer>): DbCommand -> Traced<DbCommand>
  {
    c => ConfigurePipeline(pipeline, c)
  }

  /** The exec closure of Transaction and TransactionAsync: the pipeline on
      every command in order, then the inner transaction on the result. */
  function TransactionExec(pipeline: Option<Configurer>, inner: seq<DbCommand> -> Traced<Unit>,
      commands: seq<DbCommand>): Traced<Unit>
  {
    var before := Log(Debug, L.Performing, [Num(|commands|)]);
    var configured := P.SelectAll(PipelineStep(pipeline), commands);
    if configured.0.Fail? then (Fail(configured.0.error), [before] + configured.1)
    else
      var result := inner(configured.0.value);
      (result.0, [before] + configured.1 + result.1
                 + (if result.0.Ok? then [Log(Information, L.Performed, [Num(|configured.0.value|)])] else []))
  }

  /** Transaction(commands, callback): Try.To(exec, logger). */
  function Transaction(pipeline: Option<Configurer>, inner: seq<DbCommand> -> Traced<Unit>,
      commands: seq<DbCommand>): (r: Traced<Unit>)
    ensures Unwrapped(r.0) == TransactionExec(pipeline, inner, commands).0
    ensures r.0.Fail? ==> r.0.error.Micron? && Depth(r.0.error) >= 1
  {
    MT.To(TransactionExec(pipeline, inner, commands), Recording)
  }

  /** TransactionAsync as written: `await Try.To(exec, logger)` with an async
      exec, so the transaction's failure comes back unwrapped and unlogged. */
  function TransactionAsync(pipeline: Option<Configurer>, inner: seq<DbCommand> -> Traced<Unit>,
      commands: seq<DbCommand>): (r: Traced<Unit>)
    ensures r == TransactionExec(pipeline, inner, commands)
  {
    MT.ToOverAsync(TransactionExec(pipeline, inner, commands), Recording)
  }

  /** TransactionAsync as the other async operations have it: Try.ToAsync,
      which wraps every failure once, after one error entry. */
  function TransactionAsyncWrapped(pipeline: Option<Configurer>, inner: seq<DbCommand> -> Traced<Unit>,
      commands: seq<DbCommand>): (r: Traced<Unit>)
    ensures var run := TransactionExec(pipeline, inner, commands);
      Unwrapped(r.0) == run.0 && Calls(r.1) == Calls(run.1)
      && (run.0.Fail? ==> r.0 == Fail(Wrapped(run.0.error))
                          && |Filter(r.1, IsErrorLog)| == |Filter(run.1, IsErrorLog)| + 1)
  {
    MT.ToAsync(false, TransactionExec(pipeline, inner, commands), Recording)
  }

  /** A failure of the inner transaction reaches the caller of TransactionAsync
      as the inner exception itself, where Transaction and the corrected
      TransactionAsync report it wrapped in a MicronException. */
  lemma TransactionAsyncLeaksInnerFailure(pipeline: Option<Configurer>, inner: seq<DbCommand> -> Traced<Unit>,
                                          commands: seq<DbCommand>, configured: seq<DbCommand>, e: Exn)
    requires P.SelectAll(PipelineStep(pipeline), commands).0 == Ok(configured)
    requires inner(configured).0 == Fail(e)
    ensures TransactionAsync(pipeline, inner, commands).0 == Fail(e)
    ensures TransactionAsyncWrapped(pipeline, inner, commands).0 == Fail(Wrapped(e))
    ensures Transaction(pipeline, inner, commands).0 == Fail(Wrapped(e))
  {
  }

  /** Every command the pipeline accepts is configured, in order. */
  lemma PipelineConfiguresAll(pipeline: Option<Configurer>, commands: seq<DbCommand>)
    requires forall i :: 0 <= i < |commands| ==> ConfigurePipeline(pipeline, commands[i]).0.Ok?
    ensures var configured := P.SelectAll(PipelineStep(pipeline), commands).0;
      configured.Ok? && |configured.value| == |commands|
      && forall i :: 0 <= i < |commands| ==> ConfigurePipeline(pipeline, commands[i]).0 == Ok(configured.value[i])
  {
    var step := PipelineStep(pipeline);
    forall i | 0 <= i < |commands|
      ensures step(commands[i]) == ConfigurePipeline(pipeline, commands[i])
    {
    }
  }

  /** An exception of the configuration pipeline is wrapped like one of the
      inner handler, and the inner handler is then not called. */
  lemma PipelineFailureWrapped<T>(configure: Configurer, inner: DbCommand -> Traced<T>, command: DbCommand,
                                  before: Event, done: string, doneArgs: (DbCommand, T) -> seq<Arg>)
    requires configure(command).Fail? && before.Log?
    ensures var r := Single(Some(configure), inner, command, before, done, doneArgs);
      r.0 == Fail(Wrapped(configure(command).error)) && Calls(r.1) == [Configured(command.text)]
  {
    var configured := ConfigurePipeline(Some(configure), command);
    var run := Exec(Some(configure), inner, command, before, done, doneArgs);
    assert run.1 == [before] + configured.1 + [];
    CallsBetweenLogs([before], configured.1, []);
  }
}
