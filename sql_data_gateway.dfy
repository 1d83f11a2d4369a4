// DataGateway of Micron.SqlClient: Execute and Scalar run their whole body
// (connection, commands, commit or conversion, close) inside the retry
// handler's Execute(Func<Task>), which awaits each attempt; Query retries only
// the creation of a lazy enumerable and then enumerates it.
module SqlDataGateway {
  import opened Common
  import G = SqlGateway
  import R = SqlRetryHandler
  import B = SqlBackoffInterval
  import T = SqlRetryTimes

  // ---------------------------------------------------------------------------
  // Execute: the transaction as one retried unit.

  /** The driver's answers on one attempt of Execute. */
  datatype AttemptDriver = AttemptDriver(
    connect: Result<Unit>,      // the connection factory
    begin: Result<Unit>,        // BeginTransactionAsync
    exec: nat -> Result<int>,   // ExecuteNonQueryAsync of command i
    commit: Result<Unit>,       // CommitAsync
    close: Result<Unit>)        // CloseAsync after the commit

  /** One attempt: commands in order with the expected-affected check, commit,
      close; the `using` transaction and connection are disposed on every exit. */
  function AttemptSpec<V>(commands: seq<G.Command<V>>, d: AttemptDriver): (Result<Unit>, seq<Event>)
  {
    if d.connect.Fail? then (Fail(d.connect.error), [])
    else if d.begin.Fail? then (Fail(d.begin.error), [Begin, DisposeConnection])
    else
      var k := FirstFailure(G.Checked(commands, d.exec), |commands|, 0);
      if k < |commands| then
        (Fail(G.Checked(commands, d.exec)(k).error), [Begin] + Execs(k + 1) + [DisposeTransaction, DisposeConnection])
      else if d.commit.Fail? then (Fail(d.commit.error), [Begin] + Execs(|commands|)
          + [Commit, DisposeTransaction, DisposeConnection])
      else (d.close, [Begin] + Execs(|commands|) + [Commit, Close, DisposeTransaction, DisposeConnection])
  }

  /** exec(commands) on one attempt. */
  method RunAttempt<V>(commands: seq<G.Command<V>>, d: AttemptDriver) returns (r: Result<Unit>, calls: seq<Event>)
    ensures (r, calls) == AttemptSpec(commands, d)
  {
    if d.connect.Fail? {
      return Fail(d.connect.error), [];
    }
    if d.begin.Fail? {
      return Fail(d.begin.error), [Begin, DisposeConnection];
    }
    calls := [Begin];
    ghost var outcome := G.Checked(commands, d.exec);
    for i := 0 to |commands|
      invariant calls == [Begin] + Execs(i)
      invariant forall j :: 0 <= j < i ==> outcome(j).Ok?
    {
      var cmd := G.BuildCommand(commands[i].commandText, commands[i].parameters, true);
      calls := calls + [Exec(i)];
      assert calls == [Begin] + Execs(i + 1);
      var affected := d.exec(i);
      if affected.Fail? || commands[i].expectedAffectedRows != affected.value {
        assert outcome(i).Fail?;
        assert FirstFailure(outcome, |commands|, 0) == i;
        r := if affected.Fail? then Fail(affected.error) else Fail(G.Mismatch(commands[i].expectedAffectedRows, affected.value));
        return r, calls + [DisposeTransaction, DisposeConnection];
      }
    }
    assert FirstFailure(outcome, |commands|, 0) == |commands|;
    if d.commit.Fail? {
      return Fail(d.commit.error), calls + [Commit, DisposeTransaction, DisposeConnection];
    }
    r := d.close;
    calls := calls + [Commit, Close, DisposeTransaction, DisposeConnection];
  }

  /** The outcome of attempt a. */
  function AttemptOp<V>(commands: seq<G.Command<V>>, world: nat -> AttemptDriver): nat -> Result<Unit>
  {
    (a: nat) => AttemptSpec(commands, world(a)).0
  }

  /** The calls of attempts 0 .. m-1, one after the other. */
  function AttemptTrace<V>(commands: seq<G.Command<V>>, world: nat -> AttemptDriver, m: nat): seq<Event>
  {
    if m == 0 then [] else AttemptTrace(commands, world, m - 1) + AttemptSpec(commands, world(m - 1)).1
  }

  /** What Execute(request) does with the handler built by the configuration. */
  function ExecuteSpec<V>(h: R.RetryHandler, commands: seq<G.Command<V>>, world: nat -> AttemptDriver): (Result<Unit>, seq<Event>)
  {
    var run := R.Attempts(h, AttemptOp(commands, world), 0);
    (run.result, AttemptTrace(commands, world, run.invocations))
  }

  /** Execute(request): the retry handler's loop around the attempt body
      (RunAttempt). */
  method Execute<V>(h: R.RetryHandler, commands: seq<G.Command<V>>, world: nat -> AttemptDriver)
      returns (r: Result<Unit>, events: seq<Event>)
    ensures (r, events) == ExecuteSpec(h, commands, world)
  {
    var invocations: nat, backoffs: seq<int>;
    r, invocations, backoffs := R.Execute(h, AttemptOp(commands, world));
    events := AttemptTrace(commands, world, invocations);
  }

  /** An attempt commits only after every command matched its expectation. */
  lemma AttemptCommitsOnlyWhenAllMatched<V>(commands: seq<G.Command<V>>, d: AttemptDriver)
    ensures Commit in AttemptSpec(commands, d).1 <==> d.connect.Ok? && d.begin.Ok? && G.AllMatched(commands, d.exec)
  {
    var outcome := G.Checked(commands, d.exec);
    var k := FirstFailure(outcome, |commands|, 0);
    if d.connect.Ok? && d.begin.Ok? {
      if k < |commands| {
        assert outcome(k).Fail?;
        assert Commit !in Execs(k + 1);
        assert AttemptSpec(commands, d).1 == [Begin] + Execs(k + 1) + [DisposeTransaction, DisposeConnection];
      } else {
        forall i | 0 <= i < |commands|
          ensures d.exec(i) == Ok(commands[i].expectedAffectedRows)
        {
          assert outcome(i).Ok?;
        }
      }
    }
  }

  /** A failed first attempt whose exception the handler retries is followed
      by a second attempt that starts again from the connection and the first
      command; if that one completes, Execute succeeds with both attempts'
      calls, in order. */
  lemma ExecuteRetriesWholeTransaction<V>(h: R.RetryHandler, commands: seq<G.Command<V>>, world: nat -> AttemptDriver)
    requires h.retryCount >= 0 && h.backoff.Interval? && h.backoff.calculation.compute(1) >= InfiniteTimeout
    requires AttemptOp(commands, world)(0).Fail? && AnyMatches(h.conditions, AttemptOp(commands, world)(0).error)
    requires AttemptOp(commands, world)(1).Ok?
    ensures ExecuteSpec(h, commands, world) == (Ok(Unit), AttemptSpec(commands, world(0)).1 + AttemptSpec(commands, world(1)).1)
  {
    var op := AttemptOp(commands, world);
    assert R.Attempts(h, op, 1) == Run(op(1), 2, []);
    assert R.Attempts(h, op, 0) == Run(op(1), 2, [1]);
    assert op(1) == Ok(Unit) by {
      var u: Unit := op(1).value;
      assert u == Unit;
    }
    assert AttemptTrace(commands, world, 1) == AttemptSpec(commands, world(0)).1 by {
      assert AttemptTrace(commands, world, 0) == [];
    }
  }

  /** A successful attempt runs every command, commits and closes the connection. */
  lemma SucceedingAttemptRanAll<V>(commands: seq<G.Command<V>>, d: AttemptDriver)
    requires AttemptSpec(commands, d).0.Ok?
    ensures G.AllMatched(commands, d.exec) && d.commit.Ok?
    ensures AttemptSpec(commands, d).1 == [Begin] + Execs(|commands|) + [Commit, Close, DisposeTransaction, DisposeConnection]
  {
    AttemptCommitsOnlyWhenAllMatched(commands, d);
  }

  // ---------------------------------------------------------------------------
  // Scalar: a failed conversion becomes a MicronException.

  /** The driver's answers on one attempt of Scalar. */
  datatype ScalarDriver<V> = ScalarDriver(connect: Result<Unit>, value: Result<V>, close: Result<Unit>)

  /** convert<TValue>(value): Convert.ChangeType (given as `convert`), with its
      failure rethrown as MicronException with the failure as its cause. */
  function Converted<V, U>(convert: V -> Result<U>, v: V): (r: Result<U>)
    ensures convert(v).Ok? ==> r == convert(v)
    ensures convert(v).Fail? ==> r == Fail(Micron(Unconvertible, Some(convert(v).error)))
  {
    match convert(v)
    case Ok(x) => Ok(x)
    case Fail(e) => Fail(Micron(Unconvertible, Some(e)))
  }

  /** One attempt of Scalar's exec: the converted value it assigns, once the
      connection has also been closed. */
  function ScalarAttempt<V, U>(d: ScalarDriver<V>, convert: V -> Result<U>): Result<U>
  {
    if d.connect.Fail? then Fail(d.connect.error)
    else if d.value.Fail? then Fail(d.value.error)
    else
      var converted := Converted(convert, d.value.value);
      if converted.Fail? then converted
      else if d.close.Fail? then Fail(d.close.error)
      else converted
  }

  function ScalarOp<V, U>(world: nat -> ScalarDriver<V>, convert: V -> Result<U>): nat -> Result<U>
  {
    (a: nat) => ScalarAttempt(world(a), convert)
  }

  /** Scalar(request): the value assigned by the last attempt is returned once
      the retry handler completes. */
  method Scalar<V, U>(h: R.RetryHandler, world: nat -> ScalarDriver<V>, convert: V -> Result<U>) returns (r: Result<U>)
    ensures r == R.Attempts(h, ScalarOp(world, convert), 0).result
  {
    var invocations: nat, backoffs: seq<int>;
    r, invocations, backoffs := R.Execute(h, ScalarOp(world, convert));
  }

  /** A conversion that fails on the first attempt surfaces as MicronException
      with the conversion's exception as cause, unless a condition retries it. */
  lemma ScalarWrapsConversionFailure<V, U>(h: R.RetryHandler, world: nat -> ScalarDriver<V>, convert: V -> Result<U>)
    requires world(0).connect.Ok? && world(0).value.Ok? && convert(world(0).value.value).Fail?
    requires !AnyMatches(h.conditions, Micron(Unconvertible, Some(convert(world(0).value.value).error)))
    ensures R.Attempts(h, ScalarOp(world, convert), 0).result
        == Fail(Micron(Unconvertible, Some(convert(world(0).value.value).error)))
  {
    assert ScalarOp(world, convert)(0) == Fail(Micron(Unconvertible, Some(convert(world(0).value.value).error)));
    R.UnmatchedRethrown(h, ScalarOp(world, convert));
  }

  /** A first attempt that completes returns the converted value unchanged. */
  lemma ScalarReturnsConverted<V, U>(h: R.RetryHandler, world: nat -> ScalarDriver<V>, convert: V -> Result<U>)
    requires world(0).connect.Ok? && world(0).value.Ok? && convert(world(0).value.value).Ok? && world(0).close.Ok?
    ensures R.Attempts(h, ScalarOp(world, convert), 0).result == convert(world(0).value.value)
  {
    assert ScalarOp(world, convert)(0) == convert(world(0).value.value);
    R.SucceedsFirst(h, ScalarOp(world, convert));
  }

  // ---------------------------------------------------------------------------
  // Query: only the creation of the enumerable is retried.

  /** The values the enumerable produced by exec(query) yields, and how it
      ends: it completes, or MoveNextAsync throws (connection, reader or Map). */
  datatype Enumerable<U> = Enumerable(values: seq<U>, end: Result<Unit>)

  /** The enumerable over a query's rows: SqlGateway's Query loop, run lazily. */
  function Enumerate<Rw, U>(connect: Result<Unit>, reader: Result<seq<Rw>>, mapRow: Rw -> Result<U>): Enumerable<U>
  {
    var (end, values) := G.QuerySpec(connect, reader, mapRow);
    Enumerable(values, end)
  }

  /** The retry handler wraps `enumerable = exec(query)`, which only creates
      the lazy enumerable and so never throws: exactly one invocation. */
  lemma CreationRunsOnce(h: R.RetryHandler)
    ensures R.Attempts(h, (_: nat) => Ok(Unit), 0) == Run(Ok(Unit), 1, [])
  {
    assert ((_: nat) => Ok(Unit))(0) == Ok(Unit);
  }

  /** Query as written: `for (more = true; more;) { more = MoveNextAsync();
      yield return Current; }` also yields Current after MoveNextAsync has
      returned false. `finalCurrent` is what Current holds at that point. */
  method QueryAsWritten<U>(e: Enumerable<U>, finalCurrent: U) returns (r: Result<Unit>, yielded: seq<U>)
    ensures r == e.end
    ensures e.end.Ok? ==> yielded == e.values + [finalCurrent]
    ensures e.end.Fail? ==> yielded == e.values
  {
    yielded := [];
    var i := 0;
    var more := true;
    while more
      invariant 0 <= i <= |e.values|
      invariant more ==> yielded == e.values[..i]
      invariant !more ==> e.end.Ok? && yielded == e.values + [finalCurrent]
      decreases |e.values| - i, more
    {
      var current: U;
      if i < |e.values| {
        more, current := true, e.values[i];
        i := i + 1;
      } else if e.end.Fail? {
        return e.end, yielded;
      } else {
        more, current := false, finalCurrent;
      }
      yielded := yielded + [current];
    }
    r := e.end;
  }

  /** Query as intended: `while (await MoveNextAsync()) yield return Current;`. */
  method Query<U>(e: Enumerable<U>) returns (r: Result<Unit>, yielded: seq<U>)
    ensures r == e.end && yielded == e.values
  {
    yielded := [];
    var i := 0;
    while i < |e.values|
      invariant 0 <= i <= |e.values| && yielded == e.values[..i]
    {
      yielded := yielded + [e.values[i]];
      i := i + 1;
    }
    r := e.end;
  }

  /** Over a reader of n rows that all map, the enumerable completes with one
      value per row: Query then yields those n values, QueryAsWritten n + 1. */
  lemma EnumerateYieldsPerRow<Rw, U>(connect: Result<Unit>, rows: seq<Rw>, mapRow: Rw -> Result<U>)
    requires connect.Ok? && forall i :: 0 <= i < |rows| ==> mapRow(rows[i]).Ok?
    ensures var e := Enumerate(connect, Ok(rows), mapRow);
      e.end.Ok? && |e.values| == |rows| && forall i :: 0 <= i < |rows| ==> e.values[i] == mapRow(rows[i]).value
  {
    G.QueryYieldsPerRow(connect, rows, mapRow);
  }

  // ---------------------------------------------------------------------------
  // The configuration builder.

  class DataGateway {
    /** The registered connection factory (null until Connection is called). */
    var connection: Option<nat>
    /** The builder's retry expression: the condition its OnException stored. */
    var retryCondition: Option<Condition>
    /** The retry handler Retry built (null until then). */
    var handler: Option<R.RetryHandler>

    constructor ()
      ensures connection == None && retryCondition == None && handler == None
    {
      connection := None;
      retryCondition := None;
      handler := None;
    }

    method Connection(factory: nat)
      modifies this
      ensures connection == Some(factory)
      ensures retryCondition == old(retryCondition) && handler == old(handler)
    {
      connection := Some(factory);
    }

    /** OnException<TException>(condition): a fresh retry expression replaces
        the previous one. The RetryHandler.OnException it calls is taken to
        behave as Micron's RetryConfigurer.OnException<TException>: without a
        condition every exception matches, whatever its type; otherwise an
        exception matches iff it is a TException (`isT`) that satisfies the
        condition. */
    method OnException(isT: Exn -> bool, c: Option<Exn -> bool>)
      modifies this
      ensures retryCondition.Some?
      ensures c.None? ==> forall e :: retryCondition.value(e)
      ensures c.Some? ==> forall e :: retryCondition.value(e) == (isT(e) && c.value(e))
      ensures connection == old(connection) && handler == old(handler)
    {
      if c.None? {
        retryCondition := Some(_ => true);
      } else {
        var typed := c.value;
        retryCondition := Some(e => isT(e) && typed(e));
      }
    }

    /** Retry(times, backoff): builds the handler from the last retry
        expression; before any OnException the expression is null. */
    method Retry(times: T.RetryTimes, backoff: B.BackoffInterval) returns (r: Result<Unit>)
      modifies this
      ensures retryCondition.None? ==> r == Fail(NullReference) && handler == old(handler)
      ensures retryCondition.Some? ==>
                r == Ok(Unit) && handler == Some(R.RetryHandler(times.retryCount, backoff, [retryCondition.value]))
      ensures connection == old(connection) && retryCondition == old(retryCondition)
    {
      if retryCondition.None? {
        return Fail(NullReference);
      }
      handler := Some(R.RetryHandler(times.retryCount, backoff, [retryCondition.value]));
      r := Ok(Unit);
    }

    /** Execute(request): a handler that was never built is null. */
    method ExecuteRequest<V>(commands: seq<G.Command<V>>, world: nat -> AttemptDriver)
        returns (r: Result<Unit>, events: seq<Event>)
      ensures handler.None? ==> (r, events) == (Fail(NullReference), [])
      ensures handler.Some? ==> (r, events) == ExecuteSpec(handler.value, commands, world)
    {
      if handler.None? {
        return Fail(NullReference), [];
      }
      r, events := Execute(handler.value, commands, world);
    }
  }

  /** The last OnException wins: the handler Retry builds retries exactly the
      exceptions the last registered condition accepts. */
  lemma LastOnExceptionWins(g: DataGateway, isT: Exn -> bool, c: Exn -> bool, e: Exn)
    requires g.handler.Some? && g.retryCondition.Some?
    requires forall x :: g.retryCondition.value(x) == (isT(x) && c(x))
    requires g.handler.value.conditions == [g.retryCondition.value]
    ensures AnyMatches(g.handler.value.conditions, e) <==> isT(e) && c(e)
  {
    assert g.handler.value.conditions[0] == g.retryCondition.value;
  }
}
