// SqlGateway of Micron.SqlClient: Execute runs every command in order on one
// connection inside one ReadCommitted transaction, checks each command's
// affected-row count against its expectation, and commits only when all of
// them matched. The configuration builder records a connection factory and
// appends every exception-retry configuration it is given.
module SqlGateway {
  import opened Common
  import C = SqlExceptionRetryConfiguration

  /** ICommand: a statement with its positional parameter values and the
      number of rows it must affect. */
  datatype Command<V> = Command(commandText: string, parameters: seq<V>, expectedAffectedRows: int)

  /** The driver's answers to one Execute: the connection factory, the
      BeginTransaction call, ExecuteNonQuery of command i, and Commit. */
  datatype Driver = Driver(connect: Result<Unit>, begin: Result<Unit>, exec: nat -> Result<int>, commit: Result<Unit>)

  /** A DbCommand as BuildCommand prepares it. */
  class DriverCommand<V> {
    var commandText: string
    var inTransaction: bool
    var parameters: seq<V>

    /** conn.CreateCommand(): no text, no transaction, no parameters. */
    constructor ()
      ensures commandText == "" && !inTransaction && parameters == []
    {
      commandText := "";
      inTransaction := false;
      parameters := [];
    }
  }

  /** BuildCommand(commandText, parameters, conn, tran): one parameter per
      value, in order, and the transaction attached iff one is supplied. */
  method BuildCommand<V>(commandText: string, parameters: seq<V>, inTransaction: bool) returns (cmd: DriverCommand<V>)
    ensures fresh(cmd)
    ensures cmd.commandText == commandText && cmd.inTransaction == inTransaction
    ensures |cmd.parameters| == |parameters| && forall i :: 0 <= i < |parameters| ==> cmd.parameters[i] == parameters[i]
  {
    cmd := new DriverCommand();
    cmd.commandText := commandText;
    if inTransaction {
      cmd.inTransaction := true;
    }
    for i := 0 to |parameters|
      invariant cmd.commandText == commandText && cmd.inTransaction == inTransaction
      invariant cmd.parameters == parameters[..i]
    {
      cmd.parameters := cmd.parameters + [parameters[i]];
    }
  }

  /** The exception thrown for command i when its count is not the expected one. */
  function Mismatch(expected: int, actual: int): Exn
  {
    Micron(UnexpectedAffected(expected, actual), None)
  }

  /** The outcome of command i inside Execute: the driver's failure, the
      mismatch exception, or its affected count. */
  function Checked<V>(commands: seq<Command<V>>, exec: nat -> Result<int>): nat -> Result<int>
  {
    (i: nat) =>
      if i >= |commands| then Ok(0)
      else match exec(i)
        case Fail(e) => Fail(e)
        case Ok(affected) =>
          if commands[i].expectedAffectedRows != affected then Fail(Mismatch(commands[i].expectedAffectedRows, affected))
          else Ok(affected)
  }

  /** What Execute(commands) does. The `using` transaction is disposed (and so
      rolled back unless committed) and the connection disposed on every exit. */
  function ExecuteSpec<V>(commands: seq<Command<V>>, d: Driver): (Result<Unit>, seq<Event>)
  {
    if d.connect.Fail? then (Fail(d.connect.error), [])
    else if d.begin.Fail? then (Fail(d.begin.error), [Begin, DisposeConnection])
    else
      var k := FirstFailure(Checked(commands, d.exec), |commands|, 0);
      if k < |commands| then (Fail(Checked(commands, d.exec)(k).error), [Begin] + Execs(k + 1)
          + [DisposeTransaction, DisposeConnection])
      else (d.commit, [Begin] + Execs(|commands|) + [Commit, DisposeTransaction, DisposeConnection])
  }

  /** Execute(params commands): the foreach loop with its early throw. */
  method ExecuteCommands<V>(commands: seq<Command<V>>, d: Driver) returns (r: Result<Unit>, events: seq<Event>)
    ensures (r, events) == ExecuteSpec(commands, d)
  {
    if d.connect.Fail? {
      return Fail(d.connect.error), [];
    }
    events := [Begin];
    if d.begin.Fail? {
      return Fail(d.begin.error), [Begin, DisposeConnection];
    }
    ghost var outcome := Checked(commands, d.exec);
    for i := 0 to |commands|
      invariant events == [Begin] + Execs(i)
      invariant forall j :: 0 <= j < i ==> outcome(j).Ok?
    {
      var cmd := BuildCommand(commands[i].commandText, commands[i].parameters, true);
      events := events + [Exec(i)];
      assert events == [Begin] + Execs(i + 1);
      var affected := d.exec(i);
      if affected.Fail? || commands[i].expectedAffectedRows != affected.value {
        assert outcome(i).Fail?;
        assert FirstFailure(outcome, |commands|, 0) == i;
        r := if affected.Fail? then Fail(affected.error) else Fail(Mismatch(commands[i].expectedAffectedRows, affected.value));
        return r, events + [DisposeTransaction, DisposeConnection];
      }
    }
    assert FirstFailure(outcome, |commands|, 0) == |commands|;
    r := d.commit;
    events := events + [Commit, DisposeTransaction, DisposeConnection];
  }

  /** Every command matched: each ran and affected exactly its expected count. */
  predicate AllMatched<V>(commands: seq<Command<V>>, exec: nat -> Result<int>)
  {
    forall i :: 0 <= i < |commands| ==> exec(i) == Ok(commands[i].expectedAffectedRows)
  }

  /** Commit is reached iff the connection and transaction were obtained and
      every command matched its expectation, and then Execute returns what
      Commit returns after running all commands in order. */
  lemma CommitOnlyWhenAllMatched<V>(commands: seq<Command<V>>, d: Driver)
    ensures var (r, events) := ExecuteSpec(commands, d);
      Commit in events <==> d.connect.Ok? && d.begin.Ok? && AllMatched(commands, d.exec)
    ensures d.connect.Ok? && d.begin.Ok? && AllMatched(commands, d.exec) ==>
      ExecuteSpec(commands, d) == (d.commit, [Begin] + Execs(|commands|) + [Commit, DisposeTransaction, DisposeConnection])
  {
    if d.connect.Ok? && d.begin.Ok? {
      if FirstFailure(Checked(commands, d.exec), |commands|, 0) < |commands| {
        FailedRunSkipsCommit(commands, d);
      } else {
        UnfailedRunMatchedAll(commands, d);
      }
    }
  }

  lemma FailedRunSkipsCommit<V>(commands: seq<Command<V>>, d: Driver)
    requires d.connect.Ok? && d.begin.Ok?
    requires FirstFailure(Checked(commands, d.exec), |commands|, 0) < |commands|
    ensures Commit !in ExecuteSpec(commands, d).1 && !AllMatched(commands, d.exec)
  {
    var k := FirstFailure(Checked(commands, d.exec), |commands|, 0);
    assert Checked(commands, d.exec)(k).Fail?;
    assert Commit !in Execs(k + 1);
    assert ExecuteSpec(commands, d).1 == [Begin] + Execs(k + 1) + [DisposeTransaction, DisposeConnection];
  }

  lemma UnfailedRunMatchedAll<V>(commands: seq<Command<V>>, d: Driver)
    requires FirstFailure(Checked(commands, d.exec), |commands|, 0) == |commands|
    ensures AllMatched(commands, d.exec)
  {
    forall i | 0 <= i < |commands|
      ensures d.exec(i) == Ok(commands[i].expectedAffectedRows)
    {
      assert Checked(commands, d.exec)(i).Ok?;
    }
  }

  /** The first command whose count differs from its expectation throws the
      MicronException naming both counts; no later command runs and nothing
      is committed. */
  lemma StopsAtFirstMismatch<V>(commands: seq<Command<V>>, d: Driver, k: nat, actual: int)
    requires d.connect.Ok? && d.begin.Ok?
    requires k < |commands| && forall i :: 0 <= i < k ==> d.exec(i) == Ok(commands[i].expectedAffectedRows)
    requires d.exec(k) == Ok(actual) && actual != commands[k].expectedAffectedRows
    ensures ExecuteSpec(commands, d)
      == (Fail(Mismatch(commands[k].expectedAffectedRows, actual)), [Begin] + Execs(k + 1)
          + [DisposeTransaction, DisposeConnection])
  {
    var outcome := Checked(commands, d.exec);
    forall i | 0 <= i < k
      ensures outcome(i).Ok?
    {
      assert d.exec(i) == Ok(commands[i].expectedAffectedRows);
    }
    assert outcome(k).Fail?;
    assert FirstFailure(outcome, |commands|, 0) == k;
  }

  /** Scalar(commandText, parameters): ExecuteScalar, then Convert.ChangeType
      (given as `convert`); a failed conversion propagates as it is. */
  function ScalarSpec<V, T>(connect: Result<Unit>, value: Result<V>, convert: V -> Result<T>): (Result<T>, seq<Event>)
  {
    if connect.Fail? then (Fail(connect.error), [])
    else if value.Fail? then (Fail(value.error), [DisposeConnection])
    else (convert(value.value), [DisposeConnection])
  }

  method ExecuteScalar<V, T>(connect: Result<Unit>, value: Result<V>, convert: V -> Result<T>)
      returns (r: Result<T>, events: seq<Event>)
    ensures (r, events) == ScalarSpec(connect, value, convert)
  {
    if connect.Fail? {
      return Fail(connect.error), [];
    }
    events := [DisposeConnection];
    if value.Fail? {
      return Fail(value.error), events;
    }
    r := convert(value.value);
  }

  /** Query: one mapped value per row, in reader order, while Map succeeds. */
  function QuerySpec<Rw, T>(connect: Result<Unit>, reader: Result<seq<Rw>>, mapRow: Rw -> Result<T>): (Result<Unit>, seq<T>)
  {
    if connect.Fail? then (Fail(connect.error), [])
    else if reader.Fail? then (Fail(reader.error), [])
    else
      var rows := reader.value;
      var k := FirstFailure(MapOutcome(rows, mapRow), |rows|, 0);
      if k < |rows| then (Fail(mapRow(rows[k]).error), Mapped(rows, mapRow, k)) else (Ok(Unit), Mapped(rows, mapRow, |rows|))
  }

  /** Whether Map succeeded on row i. */
  function MapOutcome<Rw, T>(rows: seq<Rw>, mapRow: Rw -> Result<T>): (o: nat -> Result<Unit>)
    ensures forall i: nat :: i < |rows| ==> (o(i).Ok? <==> mapRow(rows[i]).Ok?)
  {
    (i: nat) => if i < |rows| && mapRow(rows[i]).Fail? then Fail(mapRow(rows[i]).error) else Ok(Unit)
  }

  /** The mapped values of rows 0 .. m-1 (each of which mapped successfully). */
  function Mapped<Rw, T>(rows: seq<Rw>, mapRow: Rw -> Result<T>, m: nat): (r: seq<T>)
    requires m <= |rows| && forall i :: 0 <= i < m ==> mapRow(rows[i]).Ok?
    ensures |r| == m && forall i :: 0 <= i < m ==> r[i] == mapRow(rows[i]).value
  {
    if m == 0 then [] else Mapped(rows, mapRow, m - 1) + [mapRow(rows[m - 1]).value]
  }

  /** Query's `while (await rdr.ReadAsync()) yield return await query.Map(rdr)`. */
  method ReadQuery<Rw, T>(connect: Result<Unit>, reader: Result<seq<Rw>>, mapRow: Rw -> Result<T>)
      returns (r: Result<Unit>, yielded: seq<T>)
    ensures (r, yielded) == QuerySpec(connect, reader, mapRow)
  {
    if connect.Fail? {
      return Fail(connect.error), [];
    }
    if reader.Fail? {
      return Fail(reader.error), [];
    }
    var rows := reader.value;
    ghost var outcome := MapOutcome(rows, mapRow);
    yielded := [];
    var i := 0;
    while i < |rows|
      invariant 0 <= i <= |rows|
      invariant forall j :: 0 <= j < i ==> outcome(j).Ok?
      invariant yielded == Mapped(rows, mapRow, i)
    {
      var mapped := mapRow(rows[i]);
      if mapped.Fail? {
        assert outcome(i).Fail?;
        assert FirstFailure(outcome, |rows|, 0) == i;
        return Fail(mapped.error), yielded;
      }
      yielded := yielded + [mapped.value];
      i := i + 1;
    }
    assert FirstFailure(outcome, |rows|, 0) == |rows|;
    r := Ok(Unit);
  }

  /** Query yields exactly one value per row when every Map succeeds. */
  lemma QueryYieldsPerRow<Rw, T>(connect: Result<Unit>, rows: seq<Rw>, mapRow: Rw -> Result<T>)
    requires connect.Ok? && forall i :: 0 <= i < |rows| ==> mapRow(rows[i]).Ok?
    ensures QuerySpec(connect, Ok(rows), mapRow) == (Ok(Unit), Mapped(rows, mapRow, |rows|))
  {
    var outcome := MapOutcome(rows, mapRow);
    assert forall i :: 0 <= i < |rows| ==> outcome(i).Ok?;
    assert FirstFailure(outcome, |rows|, 0) == |rows|;
  }

  /** SqlGateway and its configuration builder. */
  class Gateway {
    /** The registered connection factory (null until Connection is called). */
    var connection: Option<nat>
    var retryConfigurations: seq<C.ExceptionRetryConfiguration>

    constructor ()
      ensures connection == None && retryConfigurations == []
    {
      connection := None;
      retryConfigurations := [];
    }

    /** Connection(connectionFactory). */
    method Connection(factory: nat)
      modifies this
      ensures connection == Some(factory) && retryConfigurations == old(retryConfigurations)
    {
      connection := Some(factory);
    }

    /** OnException(filterExpression) and OnException<TException>(filterExpression):
        `configuration` is what the filter expression returned for a fresh
        configurer; it is appended, never replacing an earlier one. */
    method OnException(configuration: C.ExceptionRetryConfiguration)
      modifies this
      ensures retryConfigurations == old(retryConfigurations) + [configuration]
      ensures connection == old(connection)
    {
      retryConfigurations := retryConfigurations + [configuration];
    }

    /** Execute(commands): invoking an unset connection factory throws; the
        registered retry configurations play no part. */
    method Execute<V>(commands: seq<Command<V>>, d: Driver) returns (r: Result<Unit>, events: seq<Event>)
      ensures connection.None? ==> (r, events) == (Fail(NullReference), [])
      ensures connection.Some? ==> (r, events) == ExecuteSpec(commands, d)
    {
      if connection.None? {
        return Fail(NullReference), [];
      }
      r, events := ExecuteCommands(commands, d);
    }

    /** Scalar(commandText, parameters). */
    method Scalar<V, T>(connect: Result<Unit>, value: Result<V>, convert: V -> Result<T>)
        returns (r: Result<T>, events: seq<Event>)
      ensures connection.None? ==> (r, events) == (Fail(NullReference), [])
      ensures connection.Some? ==> (r, events) == ScalarSpec(connect, value, convert)
    {
      if connection.None? {
        return Fail(NullReference), [];
      }
      r, events := ExecuteScalar(connect, value, convert);
    }

    /** Query(query). */
    method Query<Rw, T>(connect: Result<Unit>, reader: Result<seq<Rw>>, mapRow: Rw -> Result<T>)
        returns (r: Result<Unit>, yielded: seq<T>)
      ensures connection.None? ==> (r, yielded) == (Fail(NullReference), [])
      ensures connection.Some? ==> (r, yielded) == QuerySpec(connect, reader, mapRow)
    {
      if connection.None? {
        return Fail(NullReference), [];
      }
      r, yielded := ReadQuery(connect, reader, mapRow);
    }
  }
}
