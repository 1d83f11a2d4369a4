// DbCommandHandlerLoggingDecorator of Micron: a debug entry before and an
// information entry after each call to the inner handler. There is no catch,
// so an inner exception propagates as it is and the information entry is not
// written. The async forms do the same around the awaited inner call.
module DbCommandHandlerLoggingDecorator {
  import opened Common

  const Executing := "Executing command {CommandText}."
  const Executed := "Executed command {CommandText} affecting {Affected} rows."
  const Reading := "Reading from command {CommandText} with {CommandBehavior}."
  const ReadFrom := "Read from command {CommandText} with {CommandBehavior}."
  const RetrievingScalar := "Retrieving scalar from command {CommandText}."
  const RetrievedScalar := "Retrieved scalar from command {CommandText}."
  const RetrievingString := "Retrieving string from command {CommandText}."
  const RetrievedString := "Retrieved string from command {CommandText}."
  const Performing := "Performing transaction for {CommandCount} commands."
  const Performed := "Performed transaction for {CommandCount} commands."

  /** logger.LogDebug(before); inner call; logger.LogInformation(done, doneArgs(value)).
      Only log entries are added: the inner handler's calls are unchanged. */
  function Around<T>(before: Event, done: string, doneArgs: T -> seq<Arg>, inner: Traced<T>): (r: Traced<T>)
    ensures r.0 == inner.0
    ensures |r.1| == |inner.1| + (if inner.0.Ok? then 2 else 1)
    ensures r.1[0] == before && r.1[1..|inner.1| + 1] == inner.1
    ensures inner.0.Ok? ==> r.1[|r.1| - 1] == Log(Information, done, doneArgs(inner.0.value))
    ensures before.Log? ==> Calls(r.1) == Calls(inner.1)
  {
    var tail := if inner.0.Ok? then [Log(Information, done, doneArgs(inner.0.value))] else [];
    assert before.Log? ==> Calls([before] + inner.1 + tail) == Calls(inner.1) by {
      if before.Log? {
        CallsBetweenLogs([before], inner.1, tail);
      }
    }
    (inner.0, [before] + inner.1 + tail)
  }

  /** Execute(command): the information entry carries the text captured before
      the call and the affected count the inner handler returned. */
  function Execute(inner: DbCommand -> Traced<int>, command: DbCommand): (r: Traced<int>)
    ensures r.0 == inner(command).0
    ensures |r.1| == |inner(command).1| + (if r.0.Ok? then 2 else 1)
    ensures r.1[0] == Log(Debug, Executing, [Text(command.text)])
    ensures r.0.Ok? ==> r.1[|r.1| - 1] == Log(Information, Executed, [Text(command.text), Num(r.0.value)])
    ensures Calls(r.1) == Calls(inner(command).1)
  {
    Around(Log(Debug, Executing, [Text(command.text)]), Executed,
           (affected: int) => [Text(command.text), Num(affected)], inner(command))
  }

  /** Read(command, callback, behavior): text and behaviour in both entries. */
  function Read(inner: DbCommand -> Traced<Unit>, command: DbCommand, behavior: int): (r: Traced<Unit>)
    ensures r.0 == inner(command).0
    ensures |r.1| == |inner(command).1| + (if r.0.Ok? then 2 else 1)
    ensures r.1[0] == Log(Debug, Reading, [Text(command.text), Num(behavior)])
    ensures r.0.Ok? ==> r.1[|r.1| - 1] == Log(Information, ReadFrom, [Text(command.text), Num(behavior)])
    ensures Calls(r.1) == Calls(inner(command).1)
  {
    Around(Log(Debug, Reading, [Text(command.text), Num(behavior)]), ReadFrom,
           (u: Unit) => [Text(command.text), Num(behavior)], inner(command))
  }

  /** Scalar<T>(command). */
  function Scalar<T>(inner: DbCommand -> Traced<T>, command: DbCommand): (r: Traced<T>)
    ensures r.0 == inner(command).0
    ensures |r.1| == |inner(command).1| + (if r.0.Ok? then 2 else 1)
    ensures r.1[0] == Log(Debug, RetrievingScalar, [Text(command.text)])
    ensures r.0.Ok? ==> r.1[|r.1| - 1] == Log(Information, RetrievedScalar, [Text(command.text)])
    ensures Calls(r.1) == Calls(inner(command).1)
  {
    Around(Log(Debug, RetrievingScalar, [Text(command.text)]), RetrievedScalar,
           (v: T) => [Text(command.text)], inner(command))
  }

  /** String(command). */
  function String(inner: DbCommand -> Traced<string>, command: DbCommand): (r: Traced<string>)
    ensures r.0 == inner(command).0
    ensures |r.1| == |inner(command).1| + (if r.0.Ok? then 2 else 1)
    ensures r.1[0] == Log(Debug, RetrievingString, [Text(command.text)])
    ensures r.0.Ok? ==> r.1[|r.1| - 1] == Log(Information, RetrievedString, [Text(command.text)])
    ensures Calls(r.1) == Calls(inner(command).1)
  {
    Around(Log(Debug, RetrievingString, [Text(command.text)]), RetrievedString,
           (v: string) => [Text(command.text)], inner(command))
  }

  /** Transaction(commands, callback): the command count before and after. */
  function Transaction(inner: seq<DbCommand> -> Traced<Unit>, commands: seq<DbCommand>): (r: Traced<Unit>)
    ensures r.0 == inner(commands).0
    ensures |r.1| == |inner(commands).1| + (if r.0.Ok? then 2 else 1)
    ensures r.1[0] == Log(Debug, Performing, [Num(|commands|)])
    ensures r.0.Ok? ==> r.1[|r.1| - 1] == Log(Information, Performed, [Num(|commands|)])
    ensures Calls(r.1) == Calls(inner(commands).1)
  {
    Around(Log(Debug, Performing, [Num(|commands|)]), Performed,
           (u: Unit) => [Num(|commands|)], inner(commands))
  }
}
