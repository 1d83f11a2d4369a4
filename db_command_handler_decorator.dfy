// DbCommandHandlerDecorator of Micron: logging and Try wrapping in one
// decorator. Every operation runs a local `exec` closure (a debug entry, the
// inner call, an information entry) inside Try with the decorator's logger; a
// missing logger is replaced by the null logger, which records nothing. The
// async operations other than TransactionAsync use Try.ToAsync without a
// token, which behaves as Try.To, so the members below model both forms.
module DbCommandHandlerDecorator {
  import opened Common
  import MT = MicronTry
  import L = DbCommandHandlerLoggingDecorator

  /** `logger ?? NullLogger<IDbCommandHandler>.Instance`. */
  function LoggerOrNull(logger: Option<Logger>): Logger
  {
    if logger.Some? then logger.value else Silent
  }

  /** The exec closure: `before` at debug level, the inner call (`inner` is
      what it did), and on return `done` at information level with the
      arguments `doneArgs` takes from the value. */
  function Exec<T>(logger: Logger, inner: Traced<T>, before: Event, done: string, doneArgs: T -> seq<Arg>): Traced<T>
  {
    (inner.0, Emit(logger, before) + inner.1
              + (if inner.0.Ok? then Emit(logger, Log(Information, done, doneArgs(inner.0.value))) else []))
  }

  /** Try.To(exec, this.logger). */
  function Single<T>(logger: Option<Logger>, inner: Traced<T>, before: Event, done: string, doneArgs: T -> seq<Arg>): Traced<T>
  {
    MT.To(Exec(LoggerOrNull(logger), inner, before, done, doneArgs), LoggerOrNull(logger))
  }

  /** What every operation promises: the inner call's value, or its failure
      wrapped once in a MicronException, with no call beside the inner handler's. */
  ghost predicate WrapsOnce<T>(inner: Traced<T>, r: Traced<T>)
  {
    (inner.0.Ok? ==> r.0 == inner.0)
    && (inner.0.Fail? ==> r.0 == Fail(Wrapped(inner.0.error)))
    && Calls(r.1) == Calls(inner.1)
  }

  /** Read(command, callback, behavior): the information entry passes no
      arguments for its placeholders. */
  function Read(logger: Option<Logger>, inner: DbCommand -> Traced<Unit>, command: DbCommand, behavior: int): (r: Traced<Unit>)
    ensures WrapsOnce(inner(command), r)
  {
    var before := Log(Debug, L.Reading, [Text(command.text), Num(behavior)]);
    var doneArgs := (u: Unit) => [];
    SingleWrapsOnce(logger, inner(command), before, L.ReadFrom, doneArgs);
    Single(logger, inner(command), before, L.ReadFrom, doneArgs)
  }

  /** Scalar<T>(command). */
  function Scalar<T>(logger: Option<Logger>, inner: DbCommand -> Traced<T>, command: DbCommand): (r: Traced<T>)
    ensures WrapsOnce(inner(command), r)
  {
    var before := Log(Debug, L.RetrievingScalar, [Text(command.text)]);
    var doneArgs := (v: T) => [];
    SingleWrapsOnce(logger, inner(command), before, L.RetrievedScalar, doneArgs);
    Single(logger, inner(command), before, L.RetrievedScalar, doneArgs)
  }

  /** String(command). */
  function String(logger: Option<Logger>, inner: DbCommand -> Traced<string>, command: DbCommand): (r: Traced<string>)
    ensures WrapsOnce(inner(command), r)
  {
    var before := Log(Debug, L.RetrievingString, [Text(command.text)]);
    var doneArgs := (v: string) => [];
    SingleWrapsOnce(logger, inner(command), before, L.RetrievedString, doneArgs);
    Single(logger, inner(command), before, L.RetrievedString, doneArgs)
  }

  /** Execute(command): the text and the affected count after the call. */
  function Execute(logger: Option<Logger>, inner: DbCommand -> Traced<int>, command: DbCommand): (r: Traced<int>)
    ensures WrapsOnce(inner(command), r)
  {
    var before := Log(Debug, L.Executing, [Text(command.text)]);
    var doneArgs := (affected: int) => [Text(command.text), Num(affected)];
    SingleWrapsOnce(logger, inner(command), before, L.Executed, doneArgs);
    Single(logger, inner(command), before, L.Executed, doneArgs)
  }

  /** The exec closure of Transaction and TransactionAsync. */
  function TransactionExec(logger: Logger, inner: seq<DbCommand> -> Traced<Unit>, commands: seq<DbCommand>): Traced<Unit>
  {
    Exec(logger, inner(commands), Log(Debug, L.Performing, [Num(|commands|)]),
         L.Performed, (u: Unit) => [Num(|commands|)])
  }

  /** Transaction(commands, callback): Try.To(exec, this.logger). */
  function Transaction(logger: Option<Logger>, inner: seq<DbCommand> -> Traced<Unit>, commands: seq<DbCommand>): (r: Traced<Unit>)
    ensures WrapsOnce(inner(commands), r)
  {
    var l := LoggerOrNull(logger);
    var tail := if inner(commands).0.Ok? then Emit(l, Log(Information, L.Performed, [Num(|commands|)])) else [];
    CallsBetweenLogs(Emit(l, Log(Debug, L.Performing, [Num(|commands|)])), inner(commands).1, tail);
    MT.To(TransactionExec(l, inner, commands), l)
  }

  /** TransactionAsync as written: `await Try.To(exec, this.logger)` with an
      async exec, which wraps and logs nothing. */
  function TransactionAsync(logger: Option<Logger>, inner: seq<DbCommand> -> Traced<Unit>,
      commands: seq<DbCommand>): (r: Traced<Unit>)
    ensures r == TransactionExec(LoggerOrNull(logger), inner, commands)
  {
    MT.ToOverAsync(TransactionExec(LoggerOrNull(logger), inner, commands), LoggerOrNull(logger))
  }

  /** TransactionAsync as the other async operations have it: Try.ToAsync. */
  function TransactionAsyncWrapped(logger: Option<Logger>, inner: seq<DbCommand> -> Traced<Unit>,
      commands: seq<DbCommand>): (r: Traced<Unit>)
    ensures r == Transaction(logger, inner, commands)
  {
    MT.ToAsync(false, TransactionExec(LoggerOrNull(logger), inner, commands), LoggerOrNull(logger))
  }

  /** Every operation returns what the inner call returned, or its failure
      wrapped once in a MicronException; the inner handler's calls are all
      that is added beside log entries. */
  lemma SingleWrapsOnce<T>(logger: Option<Logger>, inner: Traced<T>, before: Event, done: string, doneArgs: T -> seq<Arg>)
    requires before.Log?
    ensures var r := Single(logger, inner, before, done, doneArgs);
      (inner.0.Ok? ==> r.0 == inner.0)
      && (inner.0.Fail? ==> r.0 == Fail(Wrapped(inner.0.error)))
      && Calls(r.1) == Calls(inner.1)
  {
    var l := LoggerOrNull(logger);
    var tail := if inner.0.Ok? then Emit(l, Log(Information, done, doneArgs(inner.0.value))) else [];
    CallsBetweenLogs(Emit(l, before), inner.1, tail);
  }

  /** With the recording logger, a failure adds exactly one error entry to
      those of the inner call, and a return adds none. */
  lemma OneErrorEntryPerFailure<T>(inner: Traced<T>, before: Event, done: string, doneArgs: T -> seq<Arg>)
    requires before.Log? && before.level != Error
    ensures var r := Single(Some(Recording), inner, before, done, doneArgs);
      |Filter(r.1, IsErrorLog)| == |Filter(inner.1, IsErrorLog)| + (if inner.0.Fail? then 1 else 0)
  {
    var tail := if inner.0.Ok? then [Log(Information, done, doneArgs(inner.0.value))] else [];
    FilterNone([before], IsErrorLog);
    FilterNone(tail, IsErrorLog);
    FilterAppend([before], inner.1, IsErrorLog);
    FilterAppend([before] + inner.1, tail, IsErrorLog);
  }

  /** Without a logger the decorator records nothing: the events are exactly
      those of the inner call. */
  lemma NullLoggerRecordsNothing<T>(inner: Traced<T>, before: Event, done: string, doneArgs: T -> seq<Arg>)
    ensures Single(None, inner, before, done, doneArgs).1 == inner.1
  {
    assert Exec(Silent, inner, before, done, doneArgs).1 == [] + inner.1 + [];
  }

  /** A failure of the inner transaction reaches the caller of TransactionAsync
      unwrapped, where Transaction reports it wrapped. */
  lemma TransactionAsyncLeaksInnerFailure(logger: Option<Logger>, inner: seq<DbCommand> -> Traced<Unit>, commands: seq<DbCommand>)
    requires inner(commands).0.Fail?
    ensures TransactionAsync(logger, inner, commands).0 == inner(commands).0
    ensures Transaction(logger, inner, commands).0 == Fail(Wrapped(inner(commands).0.error))
  {
  }
}
