// DbCommandHandler of Micron.SqlClient: every operation runs inside a retry
// handler. A single command is opened and executed as one retried unit; a
// transaction (open, begin, execute all, callbacks, commit) is one retried
// unit; the connection is closed in `finally` whatever happened.
module SqlDbCommandHandler {
  import opened Common
  import R = MicronRetryHandler
  import B = MicronBackoffInterval
  import D = MicronDbCommandHandler

  // ---------------------------------------------------------------------------
  // Try / TryAsync: one command, opened and executed per attempt.

  /** One attempt of Try: open the connection, then run exec on the command. */
  function TryOp<T>(open: nat -> Result<Unit>, exec: nat -> Result<T>): nat -> Result<T>
  {
    (a: nat) => if open(a).Fail? then Fail(open(a).error) else exec(a)
  }

  /** m connection openings. */
  function Opens(m: nat): (r: seq<Event>)
    ensures |r| == m && forall i :: 0 <= i < m ==> r[i] == Open
  {
    seq(m, _ => Open)
  }

  /** What Try does: the retried outcome, one Open per attempt, then Close. */
  function TrySpec<T>(h: R.RetryHandler, open: nat -> Result<Unit>, exec: nat -> Result<T>): (Result<T>, seq<Event>)
  {
    var run := R.Attempts(h, TryOp(open, exec), 0);
    (run.result, Opens(run.invocations) + [Close])
  }

  /** Try(command, exec); `open(a)` and `exec(a)` are the driver's answers on attempt a. */
  method Try<T>(h: R.RetryHandler, open: nat -> Result<Unit>, exec: nat -> Result<T>) returns (r: Result<T>, events: seq<Event>)
    ensures (r, events) == TrySpec(h, open, exec)
  {
    var invocations: nat, backoffs: seq<int>;
    r, invocations, backoffs := R.Execute(h, TryOp(open, exec));
    events := Opens(invocations) + [Close];
  }

  /** Every Try call opens the connection once per attempt, at least once,
      closes it once at the end, and returns the outcome of its last attempt or
      the exception of the backoff after it. */
  lemma TryReopensPerAttempt<T>(h: R.RetryHandler, open: nat -> Result<Unit>, exec: nat -> Result<T>)
    ensures var (r, events) := TrySpec(h, open, exec);
      var run := R.Attempts(h, TryOp(open, exec), 0);
      |events| == run.invocations + 1 && run.invocations >= 1
      && events[0] == Open && events[|events| - 1] == Close
      && (forall i :: 0 <= i < |events| - 1 ==> events[i] == Open)
      && (r == TryOp(open, exec)(run.invocations - 1)
          || (B.Backoff(h.backoff, run.invocations).Fail? && r == Fail(B.Backoff(h.backoff, run.invocations).error)))
  {
    R.AttemptsShape(h, TryOp(open, exec), 0);
  }

  /** A first attempt that opens and executes returns the command's value
      after one Open, and the connection is closed. */
  lemma TrySucceedsFirst<T>(h: R.RetryHandler, open: nat -> Result<Unit>, exec: nat -> Result<T>)
    requires open(0).Ok? && exec(0).Ok?
    ensures TrySpec(h, open, exec) == (exec(0), [Open, Close])
  {
    assert TryOp(open, exec)(0) == exec(0);
    assert R.Attempts(h, TryOp(open, exec), 0) == Run(exec(0), 1, []);
    assert Opens(1) + [Close] == [Open, Close];
  }

  /** No catch: a failure to open that no condition accepts leaves Try
      unchanged after a single attempt, and the connection is still closed. */
  lemma TryOpenFailureRethrown<T>(h: R.RetryHandler, open: nat -> Result<Unit>, exec: nat -> Result<T>)
    requires open(0).Fail? && !AnyMatches(h.conditions, open(0).error)
    ensures TrySpec(h, open, exec) == (Fail(open(0).error), [Open, Close])
  {
    assert TryOp(open, exec)(0) == Fail(open(0).error);
    R.UnmatchedRethrown(h, TryOp(open, exec));
    assert Opens(1) + [Close] == [Open, Close];
  }

  /** No catch: a command failure that no condition accepts, on a first
      attempt that opened, is rethrown after that single attempt, and the
      connection is still closed. */
  lemma TryExecFailureRethrown<T>(h: R.RetryHandler, open: nat -> Result<Unit>, exec: nat -> Result<T>)
    requires open(0).Ok? && exec(0).Fail? && !AnyMatches(h.conditions, exec(0).error)
    ensures TrySpec(h, open, exec) == (exec(0), [Open, Close])
  {
    assert TryOp(open, exec)(0) == exec(0);
    R.UnmatchedRethrown(h, TryOp(open, exec));
    assert Opens(1) + [Close] == [Open, Close];
  }

  /** One attempt of TryAsync: the token is checked first, then open and exec. */
  function TryAsyncOp<T>(cancelledAt: nat -> bool, open: nat -> Result<Unit>, exec: nat -> Result<T>): nat -> Result<T>
  {
    (a: nat) => if cancelledAt(a) then Fail(OperationCanceled) else TryOp(open, exec)(a)
  }

  /** The openings of attempts 0 .. m-1: an attempt that found the token
      cancelled does not open. */
  function AttemptOpens(cancelledAt: nat -> bool, m: nat): (r: seq<Event>)
    ensures |r| <= m && forall i :: 0 <= i < |r| ==> r[i] == Open
  {
    if m == 0 then [] else AttemptOpens(cancelledAt, m - 1) + (if cancelledAt(m - 1) then [] else [Open])
  }

  /** What TryAsync does: `cancelled` is the token's state at the check before
      the retry loop, `cancelledAt(a)` at the check starting attempt a. */
  function TryAsyncSpec<T>(h: R.RetryHandler, cancelled: bool, cancelledAt: nat -> bool,
                           open: nat -> Result<Unit>, exec: nat -> Result<T>): (Result<T>, seq<Event>)
  {
    if cancelled then (Fail(OperationCanceled), [])
    else
      var run := R.Attempts(h, TryAsyncOp(cancelledAt, open, exec), 0, true);
      (run.result, AttemptOpens(cancelledAt, run.invocations) + [Close])
  }

  /** TryAsync(command, ct, exec). */
  method TryAsync<T>(h: R.RetryHandler, cancelled: bool, cancelledAt: nat -> bool,
                     open: nat -> Result<Unit>, exec: nat -> Result<T>) returns (r: Result<T>, events: seq<Event>)
    ensures (r, events) == TryAsyncSpec(h, cancelled, cancelledAt, open, exec)
  {
    if cancelled {
      return Fail(OperationCanceled), [];
    }
    var invocations: nat, backoffs: seq<int>;
    r, invocations, backoffs := R.ExecuteAsync(h, TryAsyncOp(cancelledAt, open, exec));
    events := AttemptOpens(cancelledAt, invocations) + [Close];
  }

  /** An uncancelled token lets every attempt open the connection. */
  lemma {:induction false} AttemptOpensUncancelled(cancelledAt: nat -> bool, m: nat)
    requires forall a :: !cancelledAt(a)
    ensures AttemptOpens(cancelledAt, m) == Opens(m)
  {
    if m > 0 {
      AttemptOpensUncancelled(cancelledAt, m - 1);
      assert Opens(m) == Opens(m - 1) + [Open];
    }
  }

  /** With a token that is never cancelled and an interval the BackoffInterval
      constructors can build, TryAsync behaves as Try. */
  lemma TryAsyncUncancelled<T>(h: R.RetryHandler, cancelledAt: nat -> bool, open: nat -> Result<Unit>, exec: nat -> Result<T>)
    requires forall a :: !cancelledAt(a)
    requires R.Constructed(h.backoff)
    ensures TryAsyncSpec(h, false, cancelledAt, open, exec) == TrySpec(h, open, exec)
  {
    R.AsyncRunsAgree(h, TryAsyncOp(cancelledAt, open, exec), 0);
    R.AttemptsAgree(h, TryAsyncOp(cancelledAt, open, exec), TryOp(open, exec), 0);
    AttemptOpensUncancelled(cancelledAt, R.Attempts(h, TryOp(open, exec), 0).invocations);
  }

  /** A token cancelled at the start of an attempt fails that attempt with
      OperationCanceledException before the connection is opened; unless a
      condition accepts that exception, nothing is retried after it. */
  lemma CancelledAttemptStops<T>(h: R.RetryHandler, cancelledAt: nat -> bool, open: nat -> Result<Unit>, exec: nat -> Result<T>)
    requires cancelledAt(0) && !AnyMatches(h.conditions, OperationCanceled)
    ensures TryAsyncSpec(h, false, cancelledAt, open, exec) == (Fail(OperationCanceled), [Close])
  {
    assert TryAsyncOp(cancelledAt, open, exec)(0) == Fail(OperationCanceled);
    assert AttemptOpens(cancelledAt, 0) == [];
    assert AttemptOpens(cancelledAt, 1) == [];
    assert AttemptOpens(cancelledAt, 1) + [Close] == [Close];
  }

  // ---------------------------------------------------------------------------
  // The exec functions of the single-command operations.

  /** Scalar's exec: the driver's value with DBNull mapped to default(T), then
      cast to T. */
  function ScalarExec<T>(value: Result<DbValue<T>>, fallback: T): (r: Result<T>)
    ensures value.Fail? ==> r == Fail(value.error)
    ensures value.Ok? ==> r == D.Scalar(value.value, fallback)
  {
    match value
    case Fail(e) => Fail(e)
    case Ok(v) => D.Scalar(v, fallback)
  }

  /** String's exec: the driver's value with DBNull mapped to "", then cast to
      string. */
  function StringExec(value: Result<DbValue<string>>): (r: Result<Option<string>>)
    ensures value.Fail? ==> r == Fail(value.error)
    ensures value.Ok? && value.value.DbNull? ==> r == Ok(Some(""))
    ensures value.Ok? && value.value.NoRow? ==> r == Ok(None)
    ensures value.Ok? && value.value.Value? ==> r == Ok(Some(value.value.value))
    ensures value.Ok? && value.value.Mistyped? ==> r == Fail(InvalidCast)
  {
    match value
    case Fail(e) => Fail(e)
    case Ok(v) => D.String(v)
  }

  /** The rows delivered by Read's loop before it stopped: all of them, or
      those up to and including the one whose callback threw. */
  function ReadSpec<Rw>(rows: seq<Rw>, callback: Rw -> Result<Unit>): (Result<Unit>, seq<Event>)
  {
    var outcome := (i: nat) => if i < |rows| then callback(rows[i]) else Ok(Unit);
    var k := FirstFailure(outcome, |rows|, 0);
    if k < |rows| then (callback(rows[k]), RowsUpTo(k + 1)) else (Ok(Unit), RowsUpTo(|rows|))
  }

  /** The row callbacks on rows 0 .. m-1, in order. */
  function RowsUpTo(m: nat): (r: seq<Event>)
    ensures |r| == m && forall i :: 0 <= i < m ==> r[i] == Row(i)
  {
    if m == 0 then [] else RowsUpTo(m - 1) + [Row(m - 1)]
  }

  /** Read's exec: `while (reader.Read()) callback(reader)` over the rows the
      reader yields, in order. */
  method ReadRows<Rw>(rows: seq<Rw>, callback: Rw -> Result<Unit>) returns (r: Result<Unit>, calls: seq<Event>)
    ensures (r, calls) == ReadSpec(rows, callback)
  {
    ghost var outcome := (i: nat) => if i < |rows| then callback(rows[i]) else Ok(Unit);
    calls := [];
    var i := 0;
    while i < |rows|
      invariant 0 <= i <= |rows|
      invariant calls == RowsUpTo(i)
      invariant forall j :: 0 <= j < i ==> outcome(j).Ok?
    {
      calls := calls + [Row(i)];
      r := callback(rows[i]);
      if r.Fail? {
        assert outcome(i).Fail?;
        assert FirstFailure(outcome, |rows|, 0) == i;
        return;
      }
      i := i + 1;
    }
    assert FirstFailure(outcome, |rows|, 0) == |rows|;
    r := Ok(Unit);
  }

  /** The callback runs once per row in reader order; Read completes iff no
      callback threw, and otherwise stops at the first that did. */
  lemma ReadDeliversInOrder<Rw>(rows: seq<Rw>, callback: Rw -> Result<Unit>)
    ensures var (r, calls) := ReadSpec(rows, callback);
      |calls| <= |rows| && (forall i :: 0 <= i < |calls| ==> calls[i] == Row(i))
      && (r.Ok? <==> forall i :: 0 <= i < |rows| ==> callback(rows[i]).Ok?)
      && (r.Ok? ==> |calls| == |rows|)
      && (r.Fail? ==> r == callback(rows[|calls| - 1]) && forall i :: 0 <= i < |calls| - 1 ==> callback(rows[i]).Ok?)
  {
    var outcome := (i: nat) => if i < |rows| then callback(rows[i]) else Ok(Unit);
    var k := FirstFailure(outcome, |rows|, 0);
    if k < |rows| {
      assert outcome(k) == callback(rows[k]);
      forall i | 0 <= i < k
        ensures callback(rows[i]).Ok?
      {
        assert outcome(i) == callback(rows[i]);
      }
    } else {
      forall i | 0 <= i < |rows|
        ensures callback(rows[i]).Ok?
      {
        assert outcome(i) == callback(rows[i]);
      }
    }
  }

  // ---------------------------------------------------------------------------
  // Transaction: the whole unit retried.

  /** The driver's answers on one attempt of a transaction. */
  datatype AttemptDriver = AttemptDriver(
    open: Result<Unit>,
    begin: Result<Unit>,
    exec: nat -> Result<int>,   // ExecuteNonQuery of the command at index i
    commit: Result<Unit>)

  /** The exception of the first callback that threw. */
  function CallbackError(cb: (nat, int) -> Result<Unit>, affected: seq<int>): Exn
    requires D.Reported(Some(cb), affected).0
  {
    var j := FirstFailure(D.CallbackOutcome(cb, affected), |affected|, 0);
    D.CallbackOutcome(cb, affected)(j).error
  }

  /** One attempt of the transaction body: open, begin, execute every command
      in order, report every result to the callback, commit; the `using`
      transaction is disposed once begun. */
  function AttemptSpec(d: AttemptDriver, n: nat, callback: D.ResultCallback): (Result<Unit>, seq<Event>)
  {
    if d.open.Fail? then (Fail(d.open.error), [Open])
    else if d.begin.Fail? then (Fail(d.begin.error), [Open, Begin])
    else
      var k := FirstFailure(d.exec, n, 0);
      if k < n then (Fail(d.exec(k).error), [Open, Begin] + Execs(k + 1) + [DisposeTransaction])
      else
        var affected := D.Affected(d.exec, n);
        var rep := D.Reported(callback, affected);
        if rep.0 then (Fail(CallbackError(callback.value, affected)), [Open, Begin] + Execs(n) + rep.1 + [DisposeTransaction])
        else (d.commit, [Open, Begin] + Execs(n) + rep.1 + [Commit, DisposeTransaction])
  }

  /** The body of the retried lambda. */
  method RunAttempt(d: AttemptDriver, n: nat, callback: D.ResultCallback) returns (r: Result<Unit>, calls: seq<Event>)
    ensures (r, calls) == AttemptSpec(d, n, callback)
  {
    calls := [Open];
    if d.open.Fail? {
      return Fail(d.open.error), calls;
    }
    calls := [Open, Begin];
    if d.begin.Fail? {
      return Fail(d.begin.error), calls;
    }
    var threw, affected, executed := D.ExecuteCommands(n, d.exec);
    if threw {
      var k := |executed| - 1;
      return Fail(d.exec(k).error), calls + executed + [DisposeTransaction];
    }
    var reported: seq<Event> := [];
    if callback.Some? {
      threw, reported := D.ReportAffected(callback.value, affected);
      if threw {
        return Fail(CallbackError(callback.value, affected)), calls + executed + reported + [DisposeTransaction];
      }
    }
    r := d.commit;
    calls := calls + executed + reported + [Commit, DisposeTransaction];
  }

  /** The outcome of attempt a. */
  function AttemptOp(world: nat -> AttemptDriver, n: nat, callback: D.ResultCallback): nat -> Result<Unit>
  {
    (a: nat) => AttemptSpec(world(a), n, callback).0
  }

  /** The calls of attempts 0 .. m-1, one after the other. */
  function AttemptTrace(world: nat -> AttemptDriver, n: nat, callback: D.ResultCallback, m: nat): seq<Event>
  {
    if m == 0 then [] else AttemptTrace(world, n, callback, m - 1) + AttemptSpec(world(m - 1), n, callback).1
  }

  /** What Transaction does; `connections` identifies each command's
      Connection object and `world(a)` answers for attempt a. */
  function TransactionSpec(h: R.RetryHandler, connections: seq<nat>, world: nat -> AttemptDriver,
      callback: D.ResultCallback): (Result<Unit>, seq<Event>)
  {
    if |connections| == 0 then (Ok(Unit), [])
    else if !AllSame(connections) then (Fail(RootCause), [])
    else
      var run := R.Attempts(h, AttemptOp(world, |connections|, callback), 0);
      (run.result, AttemptTrace(world, |connections|, callback, run.invocations) + [Close])
  }

  /** Transaction(commands, callback): the retry handler's loop invokes the
      attempt body (RunAttempt) until it succeeds or the handler gives up;
      the connection is closed afterwards. */
  method Transaction(h: R.RetryHandler, connections: seq<nat>, world: nat -> AttemptDriver, callback: D.ResultCallback)
    returns (r: Result<Unit>, events: seq<Event>)
    ensures (r, events) == TransactionSpec(h, connections, world, callback)
  {
    if |connections| == 0 {
      return Ok(Unit), [];
    }
    if !AllSame(connections) {
      return Fail(RootCause), [];
    }
    var n := |connections|;
    var invocations: nat, backoffs: seq<int>;
    r, invocations, backoffs := R.Execute(h, AttemptOp(world, n, callback));
    events := AttemptTrace(world, n, callback, invocations);
    events := events + [Close];
  }

  /** The calls of an attempt that ran to its commit: every command in order,
      then every result to the callback, then Commit. */
  function CompleteBody(d: AttemptDriver, n: nat, callback: D.ResultCallback): seq<Event>
    requires FirstFailure(d.exec, n, 0) == n
  {
    var affected := D.Affected(d.exec, n);
    [Open, Begin] + Execs(n) + (if callback.Some? then Callbacks(affected, n) else []) + [Commit, DisposeTransaction]
  }

  /** The attempt reaches its commit: the connection opened, the transaction
      began, and every command and every callback succeeded. */
  predicate Complete(d: AttemptDriver, n: nat, callback: D.ResultCallback)
  {
    d.open.Ok? && d.begin.Ok? && FirstFailure(d.exec, n, 0) == n
    && (callback.Some? ==> forall i :: 0 <= i < n ==> callback.value(i, d.exec(i).value).Ok?)
  }

  /** A complete attempt makes every call in order, commits, and returns what Commit returns. */
  lemma CompleteAttemptCommits(d: AttemptDriver, n: nat, callback: D.ResultCallback)
    requires Complete(d, n, callback)
    ensures AttemptSpec(d, n, callback) == (d.commit, CompleteBody(d, n, callback))
  {
    var affected := D.Affected(d.exec, n);
    D.ReportedCalls(callback, affected);
    var rep := D.Reported(callback, affected);
    if callback.Some? {
      assert forall i :: 0 <= i < n ==> callback.value(i, affected[i]).Ok?;
      assert rep.1 == Callbacks(affected, n);
    }
  }

  /** An incomplete attempt fails and never commits. */
  lemma IncompleteAttemptFails(d: AttemptDriver, n: nat, callback: D.ResultCallback)
    requires !Complete(d, n, callback)
    ensures AttemptSpec(d, n, callback).0.Fail?
    ensures Commit !in AttemptSpec(d, n, callback).1
  {
    if d.open.Ok? && d.begin.Ok? {
      if FirstFailure(d.exec, n, 0) < n {
        CommandFailureStops(d, n, callback);
      } else {
        CallbackFailureStops(d, n, callback);
      }
    }
  }

  /** A command that throws ends the attempt before any callback or Commit. */
  lemma CommandFailureStops(d: AttemptDriver, n: nat, callback: D.ResultCallback)
    requires d.open.Ok? && d.begin.Ok? && FirstFailure(d.exec, n, 0) < n
    ensures var k := FirstFailure(d.exec, n, 0);
      AttemptSpec(d, n, callback) == (Fail(d.exec(k).error), [Open, Begin] + Execs(k + 1) + [DisposeTransaction])
      && Commit !in AttemptSpec(d, n, callback).1
  {
    var k := FirstFailure(d.exec, n, 0);
    assert Commit !in Execs(k + 1);
  }

  /** With every command done, a callback that throws ends the attempt
      before Commit. */
  lemma CallbackFailureStops(d: AttemptDriver, n: nat, callback: D.ResultCallback)
    requires d.open.Ok? && d.begin.Ok? && FirstFailure(d.exec, n, 0) == n && !Complete(d, n, callback)
    ensures AttemptSpec(d, n, callback).0.Fail? && Commit !in AttemptSpec(d, n, callback).1
  {
    assert callback.Some?;
    var cb := callback.value;
    var affected := D.Affected(d.exec, n);
    var i :| 0 <= i < n && cb(i, d.exec(i).value).Fail?;
    var outcome := D.CallbackOutcome(cb, affected);
    assert outcome(i).Fail?;
    var j := FirstFailure(outcome, |affected|, 0);
    assert j <= i;
    var calls := Callbacks(affected, j + 1);
    assert D.Reported(callback, affected) == (true, calls);
    assert Commit !in calls;
  }

  /** An attempt succeeds iff it is complete and Commit succeeds. */
  lemma AttemptSucceedsIffCommitted(d: AttemptDriver, n: nat, callback: D.ResultCallback)
    ensures AttemptSpec(d, n, callback).0.Ok? <==> Complete(d, n, callback) && d.commit.Ok?
  {
    if Complete(d, n, callback) {
      CompleteAttemptCommits(d, n, callback);
    } else {
      IncompleteAttemptFails(d, n, callback);
    }
  }

  /** Past the guards, the connection is opened by the first attempt and
      closed once, after the last attempt, whatever the outcome. */
  lemma TransactionClosesConnection(h: R.RetryHandler, connections: seq<nat>,
      world: nat -> AttemptDriver, callback: D.ResultCallback)
    ensures |connections| == 0 ==> TransactionSpec(h, connections, world, callback) == (Ok(Unit), [])
    ensures |connections| > 0 && !AllSame(connections)
        ==> TransactionSpec(h, connections, world, callback) == (Fail(RootCause), [])
    ensures |connections| > 0 && AllSame(connections) ==>
      var events := TransactionSpec(h, connections, world, callback).1;
      |events| >= 2 && events[0] == Open && events[|events| - 1] == Close && Close !in events[..|events| - 1]
  {
    if |connections| > 0 && AllSame(connections) {
      var n := |connections|;
      var run := R.Attempts(h, AttemptOp(world, n, callback), 0);
      R.AttemptsShape(h, AttemptOp(world, n, callback), 0);
      AttemptTraceShape(world, n, callback, run.invocations);
      var events := TransactionSpec(h, connections, world, callback).1;
      assert events[..|events| - 1] == AttemptTrace(world, n, callback, run.invocations);
    }
  }

  /** The calls of m >= 1 attempts start with Open and never close the connection. */
  lemma {:induction false} AttemptTraceShape(world: nat -> AttemptDriver, n: nat, callback: D.ResultCallback, m: nat)
    ensures var trace := AttemptTrace(world, n, callback, m);
      (m >= 1 ==> |trace| >= 1 && trace[0] == Open) && Close !in trace
  {
    if m >= 1 {
      AttemptTraceShape(world, n, callback, m - 1);
      AttemptCloses(world(m - 1), n, callback);
    }
  }

  /** An attempt never closes the connection itself. */
  lemma AttemptCloses(d: AttemptDriver, n: nat, callback: D.ResultCallback)
    ensures var calls := AttemptSpec(d, n, callback).1; |calls| >= 1 && calls[0] == Open && Close !in calls
  {
    var calls := AttemptSpec(d, n, callback).1;
    if d.open.Ok? && d.begin.Ok? {
      var k := FirstFailure(d.exec, n, 0);
      if k < n {
        assert Close !in Execs(k + 1);
      } else {
        var affected := D.Affected(d.exec, n);
        D.ReportedCalls(callback, affected);
        var rep := D.Reported(callback, affected);
        assert Close !in Execs(n) && Close !in rep.1;
      }
    }
  }

  /** A commit that fails with a retried exception re-runs the whole body: the
      callbacks fire on both attempts, each with the counts of its own attempt. */
  lemma CallbacksRepeatAfterFailedCommit(h: R.RetryHandler, connections: seq<nat>, world: nat -> AttemptDriver,
                                         cb: (nat, int) -> Result<Unit>)
    requires |connections| > 0 && AllSame(connections)
    requires h.retryCount >= 0 && h.backoff.Interval? && h.backoff.calculation(1) >= InfiniteTimeout
    requires Complete(world(0), |connections|, Some(cb)) && Complete(world(1), |connections|, Some(cb))
    requires world(0).commit.Fail? && AnyMatches(h.conditions, world(0).commit.error)
    requires world(1).commit.Ok?
    ensures TransactionSpec(h, connections, world, Some(cb))
      == (Ok(Unit), CompleteBody(world(0), |connections|, Some(cb)) + CompleteBody(world(1), |connections|, Some(cb)) + [Close])
  {
    var n := |connections|;
    var op := AttemptOp(world, n, Some(cb));
    CompleteAttemptCommits(world(0), n, Some(cb));
    CompleteAttemptCommits(world(1), n, Some(cb));
    assert op(0) == AttemptSpec(world(0), n, Some(cb)).0;
    assert op(1) == AttemptSpec(world(1), n, Some(cb)).0;
    RetriedOnce(h, op);
    assert AttemptTrace(world, n, Some(cb), 1) == AttemptSpec(world(0), n, Some(cb)).1 by {
      assert AttemptTrace(world, n, Some(cb), 0) == [];
    }
    assert AttemptTrace(world, n, Some(cb), 2) == AttemptSpec(world(0), n, Some(cb)).1 + AttemptSpec(world(1), n, Some(cb)).1;
    assert R.Attempts(h, op, 0).invocations == 2;
    assert R.Attempts(h, op, 0).result == world(1).commit;
    assert world(1).commit == Ok(Unit) by {
      var u: Unit := world(1).commit.value;
      assert u == Unit;
    }
    assert TransactionSpec(h, connections, world, Some(cb)).1 == AttemptTrace(world, n, Some(cb), 2) + [Close];
  }

  /** A first failure that is retried, followed by a success, ends the run
      after two invocations with a single backoff. */
  lemma RetriedOnce<T>(h: R.RetryHandler, op: nat -> Result<T>)
    requires h.retryCount >= 0 && h.backoff.Interval? && h.backoff.calculation(1) >= InfiniteTimeout
    requires op(0).Fail? && AnyMatches(h.conditions, op(0).error) && op(1).Ok?
    ensures R.Attempts(h, op, 0) == Run(op(1), 2, [1])
  {
    assert R.Attempts(h, op, 1) == Run(op(1), 2, []);
  }


  // ---------------------------------------------------------------------------
  // The single-command operations: Try (or TryAsync) around an exec.

  /** Attempt a of Scalar's exec: the driver's ExecuteScalar answer, DBNull mapped to the fallback. */
  function ScalarOp<T>(value: nat -> Result<DbValue<T>>, fallback: T): nat -> Result<T>
  {
    (a: nat) => ScalarExec(value(a), fallback)
  }

  /** Attempt a of String's exec. */
  function StringOp(value: nat -> Result<DbValue<string>>): nat -> Result<Option<string>>
  {
    (a: nat) => StringExec(value(a))
  }

  /** Attempt a of Read's exec: ExecuteReader answers with the rows of attempt
      a (or throws), and the row loop runs over them. */
  function ReadOp<Rw>(reader: nat -> Result<seq<Rw>>, callback: Rw -> Result<Unit>): nat -> Result<Unit>
  {
    (a: nat) => match reader(a)
      case Fail(e) => Fail(e)
      case Ok(rows) => ReadSpec(rows, callback).0
  }

  method Read<Rw>(h: R.RetryHandler, open: nat -> Result<Unit>, reader: nat -> Result<seq<Rw>>, callback: Rw -> Result<Unit>)
    returns (r: Result<Unit>, events: seq<Event>)
    ensures (r, events) == TrySpec(h, open, ReadOp(reader, callback))
  {
    r, events := Try(h, open, ReadOp(reader, callback));
  }

  method Scalar<T>(h: R.RetryHandler, open: nat -> Result<Unit>, value: nat -> Result<DbValue<T>>, fallback: T)
    returns (r: Result<T>, events: seq<Event>)
    ensures (r, events) == TrySpec(h, open, ScalarOp(value, fallback))
  {
    r, events := Try(h, open, ScalarOp(value, fallback));
  }

  method String(h: R.RetryHandler, open: nat -> Result<Unit>, value: nat -> Result<DbValue<string>>)
    returns (r: Result<Option<string>>, events: seq<Event>)
    ensures (r, events) == TrySpec(h, open, StringOp(value))
  {
    r, events := Try(h, open, StringOp(value));
  }

  /** Execute: ExecuteNonQuery's answer on each attempt is the exec itself. */
  method Execute(h: R.RetryHandler, open: nat -> Result<Unit>, affected: nat -> Result<int>)
    returns (r: Result<int>, events: seq<Event>)
    ensures (r, events) == TrySpec(h, open, affected)
  {
    r, events := Try(h, open, affected);
  }

  method ReadAsync<Rw>(h: R.RetryHandler, cancelled: bool, cancelledAt: nat -> bool, open: nat -> Result<Unit>,
                       reader: nat -> Result<seq<Rw>>, callback: Rw -> Result<Unit>)
    returns (r: Result<Unit>, events: seq<Event>)
    ensures (r, events) == TryAsyncSpec(h, cancelled, cancelledAt, open, ReadOp(reader, callback))
  {
    r, events := TryAsync(h, cancelled, cancelledAt, open, ReadOp(reader, callback));
  }

  method ScalarAsync<T>(h: R.RetryHandler, cancelled: bool, cancelledAt: nat -> bool, open: nat -> Result<Unit>,
                        value: nat -> Result<DbValue<T>>, fallback: T)
    returns (r: Result<T>, events: seq<Event>)
    ensures (r, events) == TryAsyncSpec(h, cancelled, cancelledAt, open, ScalarOp(value, fallback))
  {
    r, events := TryAsync(h, cancelled, cancelledAt, open, ScalarOp(value, fallback));
  }

  method StringAsync(h: R.RetryHandler, cancelled: bool, cancelledAt: nat -> bool, open: nat -> Result<Unit>,
                     value: nat -> Result<DbValue<string>>)
    returns (r: Result<Option<string>>, events: seq<Event>)
    ensures (r, events) == TryAsyncSpec(h, cancelled, cancelledAt, open, StringOp(value))
  {
    r, events := TryAsync(h, cancelled, cancelledAt, open, StringOp(value));
  }

  method ExecuteAsync(h: R.RetryHandler, cancelled: bool, cancelledAt: nat -> bool, open: nat -> Result<Unit>,
                      affected: nat -> Result<int>)
    returns (r: Result<int>, events: seq<Event>)
    ensures (r, events) == TryAsyncSpec(h, cancelled, cancelledAt, open, affected)
  {
    r, events := TryAsync(h, cancelled, cancelledAt, open, affected);
  }

  /** Scalar on a first attempt that opens and reads: DBNull gives default(T)
      and a value of type T is returned as it is, after one Open and one Close;
      null (no row) and a value of another type throw from the cast, and the
      handler rethrows that exception when no condition accepts it. */
  lemma ScalarMapsDbNull<T>(h: R.RetryHandler, open: nat -> Result<Unit>, value: nat -> Result<DbValue<T>>, fallback: T)
    requires open(0).Ok? && value(0).Ok?
    ensures value(0).value.DbNull? ==> TrySpec(h, open, ScalarOp(value, fallback)) == (Ok(fallback), [Open, Close])
    ensures value(0).value.Value? ==> TrySpec(h, open, ScalarOp(value, fallback)) == (Ok(value(0).value.value), [Open, Close])
    ensures value(0).value.NoRow? && !AnyMatches(h.conditions, NullReference) ==>
      TrySpec(h, open, ScalarOp(value, fallback)) == (Fail(NullReference), [Open, Close])
    ensures value(0).value.Mistyped? && !AnyMatches(h.conditions, InvalidCast) ==>
      TrySpec(h, open, ScalarOp(value, fallback)) == (Fail(InvalidCast), [Open, Close])
  {
    assert ScalarOp(value, fallback)(0) == ScalarExec(value(0), fallback);
    if ScalarOp(value, fallback)(0).Ok? {
      TrySucceedsFirst(h, open, ScalarOp(value, fallback));
    } else if !AnyMatches(h.conditions, ScalarOp(value, fallback)(0).error) {
      TryExecFailureRethrown(h, open, ScalarOp(value, fallback));
    }
  }

  /** String on a first attempt that opens and reads: DBNull gives "", null
      (no row) gives the null string and a string is returned as it is, after
      one Open and one Close; a value of another type throws from the cast, and
      the handler rethrows that exception when no condition accepts it. */
  lemma StringMapsDbNull(h: R.RetryHandler, open: nat -> Result<Unit>, value: nat -> Result<DbValue<string>>)
    requires open(0).Ok? && value(0).Ok?
    ensures value(0).value.DbNull? ==> TrySpec(h, open, StringOp(value)) == (Ok(Some("")), [Open, Close])
    ensures value(0).value.NoRow? ==> TrySpec(h, open, StringOp(value)) == (Ok(None), [Open, Close])
    ensures value(0).value.Value? ==> TrySpec(h, open, StringOp(value)) == (Ok(Some(value(0).value.value)), [Open, Close])
    ensures value(0).value.Mistyped? && !AnyMatches(h.conditions, InvalidCast) ==>
      TrySpec(h, open, StringOp(value)) == (Fail(InvalidCast), [Open, Close])
  {
    assert StringOp(value)(0) == StringExec(value(0));
    if StringOp(value)(0).Ok? {
      TrySucceedsFirst(h, open, StringOp(value));
    } else if !AnyMatches(h.conditions, StringOp(value)(0).error) {
      TryExecFailureRethrown(h, open, StringOp(value));
    }
  }

  /** Read on a first attempt whose reader yields rows: it completes iff no
      row callback threw, and a callback's exception is the attempt's outcome. */
  lemma ReadFirstAttempt<Rw>(h: R.RetryHandler, open: nat -> Result<Unit>,
      reader: nat -> Result<seq<Rw>>, callback: Rw -> Result<Unit>)
    requires open(0).Ok? && reader(0).Ok?
    ensures TryOp(open, ReadOp(reader, callback))(0).Ok? <==>
        forall i :: 0 <= i < |reader(0).value| ==> callback(reader(0).value[i]).Ok?
  {
    assert TryOp(open, ReadOp(reader, callback))(0) == ReadSpec(reader(0).value, callback).0;
    ReadDeliversInOrder(reader(0).value, callback);
  }
}
