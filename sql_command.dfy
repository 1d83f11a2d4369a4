// Command of Micron.SqlClient (IDataGateway.cs): one DbCommand wrapped with a
// retry handler. Each attempt declares `using var cmd = this.command` and
// `using var conn = cmd.Connection`, so every attempt, failed or not, ends by
// disposing the connection and the one command object; a retry reopens what
// the previous attempt disposed. The asynchronous members are not implemented.
// The request defaults of the same file close the module.
module SqlCommand {
  import opened Common
  import R = MicronRetryHandler
  import H = SqlDbCommandHandler
  import D = MicronDbCommandHandler
  import G = SqlGateway

  /** The outcome of attempt a: open, make the driver call `exec`, then
      convert its answer. The conversion is the cast of Scalar and String and
      comes after conn.Close(); Read and Execute convert nothing. */
  function AttemptOp<D, T>(open: nat -> Result<Unit>, exec: nat -> Result<D>, convert: D -> Result<T>): nat -> Result<T>
  {
    (a: nat) =>
      if open(a).Fail? then Fail(open(a).error)
      else match exec(a)
        case Fail(e) => Fail(e)
        case Ok(d) => convert(d)
  }

  /** The conversion of Read and Execute: the driver's answer as it is. */
  function Unconverted<D>(d: D): Result<D>
  {
    Ok(d)
  }

  /** Scalar's cast: DBNull becomes default(T), then `(T)value`. */
  function ScalarCast<T>(fallback: T): DbValue<T> -> Result<T>
  {
    v => D.Scalar(v, fallback)
  }

  /** String's cast: DBNull becomes "", then `(string)value`. */
  function StringCast(v: DbValue<string>): Result<Option<string>>
  {
    D.String(v)
  }

  /** The calls of attempt a: Open, Close when the connection opened and the
      driver call returned, then the `using` disposals in reverse order of
      declaration. */
  function AttemptEvents<D>(id: nat, open: nat -> Result<Unit>, exec: nat -> Result<D>, a: nat): (r: seq<Event>)
    ensures |r| >= 3 && r[0] == Open && r[|r| - 2] == DisposeConnection && r[|r| - 1] == Disposed(id)
    ensures Close in r <==> open(a).Ok? && exec(a).Ok?
  {
    [Open] + (if open(a).Ok? && exec(a).Ok? then [Close] else []) + [DisposeConnection, Disposed(id)]
  }

  /** The calls of attempts 0 .. m-1, one after the other. */
  function CommandTrace<D>(id: nat, open: nat -> Result<Unit>, exec: nat -> Result<D>, m: nat): seq<Event>
  {
    if m == 0 then [] else CommandTrace(id, open, exec, m - 1) + AttemptEvents(id, open, exec, m - 1)
  }

  /** What an operation of Command does: the retried outcome of opening,
      executing and converting, and the calls of every attempt. */
  function CommandSpec<D, T>(h: R.RetryHandler, id: nat, open: nat -> Result<Unit>, exec: nat -> Result<D>,
                             convert: D -> Result<T>): (Result<T>, seq<Event>)
  {
    var run := R.Attempts(h, AttemptOp(open, exec, convert), 0);
    (run.result, CommandTrace(id, open, exec, run.invocations))
  }

  class Command {
    const handler: R.RetryHandler
    /** Identifies the wrapped DbCommand in the event trace. */
    const id: nat
    /** The wrapped DbCommand has been disposed. */
    var disposed: bool

    constructor (handler: R.RetryHandler, id: nat)
      ensures this.handler == handler && this.id == id && !disposed
    {
      this.handler := handler;
      this.id := id;
      disposed := false;
    }

    /** The lambda of one attempt: `using` the command and its connection,
        open, exec, close, convert. */
    method Attempt<D, T>(open: nat -> Result<Unit>, exec: nat -> Result<D>, convert: D -> Result<T>, a: nat)
      returns (outcome: Result<T>, calls: seq<Event>)
      modifies this
      ensures outcome == AttemptOp(open, exec, convert)(a) && calls == AttemptEvents(id, open, exec, a)
      ensures disposed
    {
      calls := [Open];
      if open(a).Fail? {
        outcome := Fail(open(a).error);
      } else {
        var answer := exec(a);
        if answer.Fail? {
          outcome := Fail(answer.error);
        } else {
          calls := calls + [Close];
          outcome := convert(answer.value);
        }
      }
      calls := calls + [DisposeConnection, Disposed(id)];
      disposed := true;
    }

    /** retryHandler.Execute(attempt): the handler's loop around Attempt; the
        first attempt disposes the command. */
    method Try<D, T>(open: nat -> Result<Unit>, exec: nat -> Result<D>, convert: D -> Result<T>)
      returns (r: Result<T>, events: seq<Event>)
      modifies this
      ensures (r, events) == CommandSpec(handler, id, open, exec, convert)
      ensures disposed
    {
      var invocations: nat, backoffs: seq<int>;
      r, invocations, backoffs := R.Execute(handler, AttemptOp(open, exec, convert));
      events := CommandTrace(id, open, exec, invocations);
      disposed := true;
    }

    /** Read(callback): the reader's rows go to the callback, in order; the
        connection is closed only after the loop completes. */
    method Read<Rw>(open: nat -> Result<Unit>, reader: nat -> Result<seq<Rw>>, callback: Rw -> Result<Unit>)
      returns (r: Result<Unit>, events: seq<Event>)
      modifies this
      ensures (r, events) == CommandSpec(handler, id, open, H.ReadOp(reader, callback), Unconverted) && disposed
    {
      r, events := Try(open, H.ReadOp(reader, callback), Unconverted);
    }

    /** Scalar<T>(): ExecuteScalar, Close, then DBNull becomes default(T) and
        the rest is cast. */
    method Scalar<T>(open: nat -> Result<Unit>, value: nat -> Result<DbValue<T>>, fallback: T)
      returns (r: Result<T>, events: seq<Event>)
      modifies this
      ensures (r, events) == CommandSpec(handler, id, open, value, ScalarCast(fallback)) && disposed
    {
      r, events := Try(open, value, ScalarCast(fallback));
    }

    /** String(): ExecuteScalar, Close, then DBNull becomes "" and the rest is
        cast. */
    method String(open: nat -> Result<Unit>, value: nat -> Result<DbValue<string>>)
      returns (r: Result<Option<string>>, events: seq<Event>)
      modifies this
      ensures (r, events) == CommandSpec(handler, id, open, value, StringCast) && disposed
    {
      r, events := Try(open, value, StringCast);
    }

    /** Execute(): the affected-row count. */
    method Execute(open: nat -> Result<Unit>, affected: nat -> Result<int>)
      returns (r: Result<int>, events: seq<Event>)
      modifies this
      ensures (r, events) == CommandSpec(handler, id, open, affected, Unconverted) && disposed
    {
      r, events := Try(open, affected, Unconverted);
    }

    /** ReadAsync, ScalarAsync, StringAsync and ExecuteAsync all throw
        NotImplementedException before touching the command. */
    method ReadAsync() returns (r: Result<Unit>)
      ensures r == Fail(NotImplemented)
    {
      r := Fail(NotImplemented);
    }

    method ScalarAsync<T>() returns (r: Result<T>)
      ensures r == Fail(NotImplemented)
    {
      r := Fail(NotImplemented);
    }

    method StringAsync() returns (r: Result<Option<string>>)
      ensures r == Fail(NotImplemented)
    {
      r := Fail(NotImplemented);
    }

    method ExecuteAsync() returns (r: Result<int>)
      ensures r == Fail(NotImplemented)
    {
      r := Fail(NotImplemented);
    }
  }

  /** A trace of attempts starts with Open and ends with the command's
      disposal, and every Open after the first comes after a disposal of the
      command by an earlier attempt. */
  lemma {:induction false} TraceReopensDisposed<D>(id: nat, open: nat -> Result<Unit>, exec: nat -> Result<D>, m: nat)
    ensures var t := CommandTrace(id, open, exec, m);
      |t| >= 3 * m && (m > 0 ==> t[0] == Open && t[|t| - 1] == Disposed(id))
      && forall i :: 0 < i < |t| && t[i] == Open ==> Disposed(id) in t[..i]
  {
    if m > 0 {
      TraceReopensDisposed(id, open, exec, m - 1);
      var prev := CommandTrace(id, open, exec, m - 1);
      var last := AttemptEvents(id, open, exec, m - 1);
      var t := prev + last;
      assert t == CommandTrace(id, open, exec, m);
      if m == 1 {
        assert prev == [];
        if open(0).Ok? && exec(0).Ok? {
          assert t == [Open, Close, DisposeConnection, Disposed(id)];
        } else {
          assert t == [Open, DisposeConnection, Disposed(id)];
        }
      } else {
        forall i | 0 < i < |t| && t[i] == Open
          ensures Disposed(id) in t[..i]
        {
          if i < |prev| {
            assert t[..i] == prev[..i];
          } else {
            assert prev[|prev| - 1] == Disposed(id);
            assert t[..i][|prev| - 1] == Disposed(id);
          }
        }
      }
    }
  }

  /** Whatever the outcome, the command was disposed at the end of the first
      attempt, and a retry opens its connection again after that disposal. */
  lemma RetryReusesDisposedCommand<D, T>(h: R.RetryHandler, id: nat, open: nat -> Result<Unit>, exec: nat -> Result<D>,
                                         convert: D -> Result<T>)
    ensures var (r, events) := CommandSpec(h, id, open, exec, convert);
      |events| >= 3 && events[0] == Open && events[|events| - 1] == Disposed(id)
      && forall i :: 0 < i < |events| && events[i] == Open ==> Disposed(id) in events[..i]
  {
    R.AttemptsShape(h, AttemptOp(open, exec, convert), 0);
    TraceReopensDisposed(id, open, exec, R.Attempts(h, AttemptOp(open, exec, convert), 0).invocations);
  }

  /** A first attempt that opens, executes and converts returns the converted
      value after Open, Close and the two disposals. */
  lemma CommandSucceedsFirst<D, T>(h: R.RetryHandler, id: nat, open: nat -> Result<Unit>, exec: nat -> Result<D>,
                                   convert: D -> Result<T>)
    requires open(0).Ok? && exec(0).Ok? && convert(exec(0).value).Ok?
    ensures CommandSpec(h, id, open, exec, convert) == (convert(exec(0).value), [Open, Close, DisposeConnection, Disposed(id)])
  {
    assert AttemptOp(open, exec, convert)(0) == convert(exec(0).value);
    assert R.Attempts(h, AttemptOp(open, exec, convert), 0) == Run(convert(exec(0).value), 1, []);
    assert CommandTrace(id, open, exec, 1) == AttemptEvents(id, open, exec, 0) by {
      assert CommandTrace(id, open, exec, 0) == [];
    }
    assert AttemptEvents(id, open, exec, 0) == [Open, Close, DisposeConnection, Disposed(id)];
  }

  /** A first attempt whose exception no condition retries is rethrown after
      that one attempt. The connection is closed exactly when the exception
      came from the conversion, after the driver call returned; a failure to
      open or execute leaves it to the disposal. */
  lemma UnretriedFailureDisposesOnly<D, T>(h: R.RetryHandler, id: nat, open: nat -> Result<Unit>, exec: nat -> Result<D>,
                                           convert: D -> Result<T>)
    requires AttemptOp(open, exec, convert)(0).Fail? && !AnyMatches(h.conditions, AttemptOp(open, exec, convert)(0).error)
    ensures open(0).Fail? || exec(0).Fail? ==>
      CommandSpec(h, id, open, exec, convert) == (AttemptOp(open, exec, convert)(0), [Open, DisposeConnection, Disposed(id)])
    ensures open(0).Ok? && exec(0).Ok? ==>
      CommandSpec(h, id, open, exec, convert)
          == (Fail(convert(exec(0).value).error), [Open, Close, DisposeConnection, Disposed(id)])
  {
    var op := AttemptOp(open, exec, convert);
    R.UnmatchedRethrown(h, op);
    var trace := CommandTrace(id, open, exec, 1);
    assert trace == AttemptEvents(id, open, exec, 0) by {
      assert CommandTrace(id, open, exec, 0) == [];
    }
    assert CommandSpec(h, id, open, exec, convert) == (op(0), trace);
    if open(0).Fail? || exec(0).Fail? {
      assert trace == [Open, DisposeConnection, Disposed(id)];
    } else {
      assert op(0) == convert(exec(0).value);
      assert trace == [Open, Close, DisposeConnection, Disposed(id)];
    }
  }

  /** Scalar has the outcome of SqlDbCommandHandler's: the cast after Close
      gives each attempt the outcome of ScalarExec, so the retried outcome is
      the same; only the calls differ. */
  lemma ScalarAgreesWithHandler<T>(h: R.RetryHandler, id: nat, open: nat -> Result<Unit>,
                                   value: nat -> Result<DbValue<T>>, fallback: T)
    ensures CommandSpec(h, id, open, value, ScalarCast(fallback)).0 == H.TrySpec(h, open, H.ScalarOp(value, fallback)).0
  {
    var op1, op2 := AttemptOp(open, value, ScalarCast(fallback)), H.TryOp(open, H.ScalarOp(value, fallback));
    forall a: nat
      ensures op1(a) == op2(a)
    {
      if open(a).Ok? {
        assert op2(a) == H.ScalarExec(value(a), fallback);
      }
    }
    R.AttemptsAgree(h, op1, op2, 0);
  }

  /** String has the outcome of SqlDbCommandHandler's, in the same way. */
  lemma StringAgreesWithHandler(h: R.RetryHandler, id: nat, open: nat -> Result<Unit>, value: nat -> Result<DbValue<string>>)
    ensures CommandSpec(h, id, open, value, StringCast).0 == H.TrySpec(h, open, H.StringOp(value)).0
  {
    var op1, op2 := AttemptOp(open, value, StringCast), H.TryOp(open, H.StringOp(value));
    forall a: nat
      ensures op1(a) == op2(a)
    {
      if open(a).Ok? {
        assert op2(a) == H.StringExec(value(a));
      }
    }
    R.AttemptsAgree(h, op1, op2, 0);
  }

  // ---------------------------------------------------------------------------
  // Request defaults.

  /** A DataStatement: command text, parameters and timeout. */
  datatype DataStatement<V> = DataStatement(commandText: string, parameters: seq<V>, timeoutSeconds: int)

  /** `new DataStatement()`: empty text, no parameters, timeout 0. */
  function NewDataStatement<V>(): (s: DataStatement<V>)
    ensures s.commandText == "" && s.parameters == [] && s.timeoutSeconds == 0
  {
    DataStatement("", [], 0)
  }

  /** `new DataCommand { CommandText, Parameters }`: ExpectedAffectedRows is -1
      unless it is set. */
  function NewDataCommand<V>(commandText: string, parameters: seq<V>): (c: G.Command<V>)
    ensures c.commandText == commandText && c.parameters == parameters && c.expectedAffectedRows == -1
  {
    G.Command(commandText, parameters, -1)
  }

  /** A command left at its default expectation passes the gateway's
      affected-rows check only when the driver reports -1 rows (the count a
      statement that is not INSERT, UPDATE or DELETE yields). */
  lemma DefaultExpectationPassesOnlyMinusOne<V>(commandText: string, parameters: seq<V>, exec: nat -> Result<int>)
    ensures G.Checked([NewDataCommand(commandText, parameters)], exec)(0).Ok? <==> exec(0) == Ok(-1)
  {
    var c := NewDataCommand(commandText, parameters);
    assert [c][0].expectedAffectedRows == -1;
  }

  /** The converter of a ScalarRequest<T> (`_ => default`) or a StringRequest
      (`_ => ""`) that was never set: it ignores the value. */
  function DefaultConverter<V(!new), T>(fallback: T): (convert: V -> T)
    ensures forall v :: convert(v) == fallback
  {
    _ => fallback
  }

  /** With the default converter every database value reads as the fallback,
      so two values convert alike. */
  lemma DefaultConverterIgnoresValue<V(!new), T>(fallback: T, v1: V, v2: V)
    ensures DefaultConverter<V, T>(fallback)(v1) == DefaultConverter<V, T>(fallback)(v2) == fallback
  {
  }
}
