// DbCommandHandler of the Micron library: the innermost handler that runs
// driver commands. Batch executes an array of commands in order, optionally in
// one transaction, reports every affected count to a callback, and swallows
// any exception after rolling back.
module MicronDbCommandHandler {
  import opened Common

  /** The driver's answers during one Batch call. */
  datatype Driver = Driver(
    begin: Result<Unit>,       // BeginTransaction
    exec: nat -> Result<int>,  // ExecuteNonQuery of the command at index i
    commit: Result<Unit>,
    rollback: Result<Unit>)

  /** A caller callback: None when null, otherwise the outcome of invoking it. */
  type ResultCallback = Option<(nat, int) -> Result<Unit>>

  /** Scalar<T> (T a value type): DBNull becomes default(T), given as
      `fallback`; `(T)value` throws on null and on a value of another type. */
  function Scalar<T>(value: DbValue<T>, fallback: T): (r: Result<T>)
    ensures r.Ok? <==> value.DbNull? || value.Value?
    ensures value.DbNull? ==> r.value == fallback
    ensures value.Value? ==> r.value == value.value
    ensures value.NoRow? ==> r.error == NullReference
    ensures value.Mistyped? ==> r.error == InvalidCast
  {
    match value
    case DbNull => Ok(fallback)
    case NoRow => Fail(NullReference)
    case Value(x) => Ok(x)
    case Mistyped => Fail(InvalidCast)
  }

  /** String: DBNull becomes the empty string; `(string)null` is the null
      string (None); a value of another type throws. */
  function String(value: DbValue<string>): (r: Result<Option<string>>)
    ensures r.Ok? <==> !value.Mistyped?
    ensures value.DbNull? ==> r.value == Some("")
    ensures value.Value? ==> r.value == Some(value.value)
    ensures value.NoRow? ==> r.value == None
    ensures value.Mistyped? ==> r.error == InvalidCast
  {
    match value
    case DbNull => Ok(Some(""))
    case NoRow => Ok(None)
    case Value(x) => Ok(Some(x))
    case Mistyped => Fail(InvalidCast)
  }

  /** The affected counts of commands 0 .. n-1, all of which succeeded. */
  function Affected(exec: nat -> Result<int>, n: nat): (r: seq<int>)
    requires forall i :: 0 <= i < n ==> exec(i).Ok?
    ensures |r| == n && forall i :: 0 <= i < n ==> r[i] == exec(i).value
  {
    if n == 0 then [] else Affected(exec, n - 1) + [exec(n - 1).value]
  }

  /** The outcome of invoking the callback on (i, affected[i]). */
  function CallbackOutcome(cb: (nat, int) -> Result<Unit>, affected: seq<int>): nat -> Result<Unit>
  {
    (i: nat) => if i < |affected| then cb(i, affected[i]) else Ok(Unit)
  }

  /** The callbacks made over the affected counts: whether one threw, and the
      invocations up to and including the one that threw. */
  function Reported(callback: ResultCallback, affected: seq<int>): (bool, seq<Event>)
  {
    match callback
    case None => (false, [])
    case Some(cb) =>
      var j := FirstFailure(CallbackOutcome(cb, affected), |affected|, 0);
      if j < |affected| then (true, Callbacks(affected, j + 1)) else (false, Callbacks(affected, |affected|))
  }

  /** How many commands the try block executes: every one, or up to and
      including the first that throws. */
  function Executed(exec: nat -> Result<int>, n: nat): (e: nat)
    ensures e <= n
  {
    var k := FirstFailure(exec, n, 0);
    if k < n then k + 1 else n
  }

  /** The try block after its executions: whether it threw, and the calls it
      made next — the callbacks, then Commit in a transaction unless a callback
      threw. Nothing follows a command that threw. */
  function AfterExecs(n: nat, useTransaction: bool, d: Driver, callback: ResultCallback): (bool, seq<Event>)
  {
    if FirstFailure(d.exec, n, 0) < n then (true, [])
    else
      var reported := Reported(callback, Affected(d.exec, n));
      if reported.0 then (true, reported.1)
      else if useTransaction then (d.commit.Fail?, reported.1 + [Commit])
      else (false, reported.1)
  }

  /** The try block after the transaction is begun: whether it threw, and the
      calls it made. */
  function TryBlock(n: nat, useTransaction: bool, d: Driver, callback: ResultCallback): (bool, seq<Event>)
  {
    var after := AfterExecs(n, useTransaction, d, callback);
    (after.0, Execs(Executed(d.exec, n)) + after.1)
  }

  /** The end of Batch after its try block `t`: Rollback if it threw in a
      transaction, then the disposal; only a throwing Rollback escapes. */
  function Finish(t: (bool, seq<Event>), useTransaction: bool, rollback: Result<Unit>): (Result<Unit>, seq<Event>)
  {
    var began := if useTransaction then [Begin] else [];
    var rolledBack := if t.0 && useTransaction then [Rollback] else [];
    var disposed := if useTransaction then [DisposeTransaction] else [];
    var r := if t.0 && useTransaction && rollback.Fail? then Fail(rollback.error) else Ok(Unit);
    (r, began + t.1 + rolledBack + disposed)
  }

  /** What Batch does: its outcome and the calls it makes, in order. */
  function BatchSpec(connections: seq<string>, useTransaction: bool, d: Driver,
      callback: ResultCallback): (Result<Unit>, seq<Event>)
  {
    if |connections| == 0 then (Ok(Unit), [])
    else if !AllSame(connections) then (Fail(RootCause), [])
    else if useTransaction && d.begin.Fail? then (Ok(Unit), [Begin])
    else Finish(TryBlock(|connections|, useTransaction, d, callback), useTransaction, d.rollback)
  }

  /** The loop over the commands: each is executed in order until one throws. */
  method ExecuteCommands(n: nat, exec: nat -> Result<int>) returns (threw: bool, affected: seq<int>, calls: seq<Event>)
    ensures threw <==> FirstFailure(exec, n, 0) < n
    ensures threw ==> calls == Execs(FirstFailure(exec, n, 0) + 1)
    ensures !threw ==> calls == Execs(n) && affected == Affected(exec, n)
    ensures calls == Execs(Executed(exec, n))
  {
    threw, affected, calls := false, [], [];
    var i := 0;
    while i < n
      invariant 0 <= i <= n
      invariant calls == Execs(i)
      invariant forall j :: 0 <= j < i ==> exec(j).Ok?
      invariant affected == Affected(exec, i)
    {
      calls := calls + [Exec(i)];
      var outcome := exec(i);
      if outcome.Fail? {
        assert FirstFailure(exec, n, 0) == i;
        return true, affected, calls;
      }
      affected := affected + [outcome.value];
      i := i + 1;
    }
    assert FirstFailure(exec, n, 0) == n;
  }

  /** The loop over the affected counts: the callback is invoked on each in
      order until it throws. */
  method ReportAffected(cb: (nat, int) -> Result<Unit>, affected: seq<int>) returns (threw: bool, calls: seq<Event>)
    ensures (threw, calls) == Reported(Some(cb), affected)
  {
    ghost var outcome := CallbackOutcome(cb, affected);
    threw, calls := false, [];
    var j := 0;
    while j < |affected|
      invariant 0 <= j <= |affected|
      invariant calls == Callbacks(affected, j)
      invariant forall k :: 0 <= k < j ==> outcome(k).Ok?
    {
      calls := calls + [Callback(j, affected[j])];
      if cb(j, affected[j]).Fail? {
        assert outcome(j) == cb(j, affected[j]);
        assert FirstFailure(outcome, |affected|, 0) == j;
        return true, calls;
      }
      j := j + 1;
    }
    assert FirstFailure(outcome, |affected|, 0) == |affected|;
  }

  /** Batch(commands, useTransaction, callback); `connections` holds each
      command's connection string. */
  method Batch(connections: seq<string>, useTransaction: bool, d: Driver, callback: ResultCallback)
    returns (r: Result<Unit>, events: seq<Event>)
    ensures (r, events) == BatchSpec(connections, useTransaction, d, callback)
  {
    events := [];
    if |connections| == 0 {
      return Ok(Unit), events;
    }
    if !AllSame(connections) {
      return Fail(RootCause), events;
    }
    var n := |connections|;
    var transaction := false;
    if useTransaction {
      events := [Begin];
      if d.begin.Fail? {
        return Ok(Unit), events;
      }
      transaction := true;
    }
    var threw, affected, calls := ExecuteCommands(n, d.exec);
    var rest: seq<Event> := [];
    if !threw {
      if callback.Some? {
        threw, rest := ReportAffected(callback.value, affected);
      }
      if !threw && transaction {
        rest := rest + [Commit];
        threw := d.commit.Fail?;
      }
    }
    assert AfterExecs(n, useTransaction, d, callback) == (threw, rest);
    calls := calls + rest;
    var rolledBack: seq<Event> := [];
    r := Ok(Unit);
    if threw && transaction {
      rolledBack := [Rollback];
      if d.rollback.Fail? {
        r := Fail(d.rollback.error);
      }
    }
    var disposed: seq<Event> := if transaction then [DisposeTransaction] else [];
    events := events + calls + rolledBack + disposed;
  }

  /** BatchAsync: the same body after a cancellation check made before anything else. */
  method BatchAsync(cancelled: bool, connections: seq<string>, useTransaction: bool, d: Driver, callback: ResultCallback)
    returns (r: Result<Unit>, events: seq<Event>)
    ensures cancelled ==> r == Fail(OperationCanceled) && events == []
    ensures !cancelled ==> (r, events) == BatchSpec(connections, useTransaction, d, callback)
  {
    if cancelled {
      return Fail(OperationCanceled), [];
    }
    r, events := Batch(connections, useTransaction, d, callback);
  }

  /** Guards: an empty array does nothing; commands on different connections
      are refused before any execution. Past the guards, Batch returns normally
      unless the rollback itself throws. */
  lemma BatchOutcome(connections: seq<string>, useTransaction: bool, d: Driver, callback: ResultCallback)
    ensures var (r, events) := BatchSpec(connections, useTransaction, d, callback);
      (|connections| == 0 ==> r == Ok(Unit) && events == [])
      && (|connections| > 0 && (exists i :: 0 <= i < |connections| && connections[i] != connections[0]) ==>
            r == Fail(RootCause) && events == [])
      && (|connections| > 0 && AllSame(connections) ==>
            r.Ok? || (useTransaction && d.rollback.Fail? && r == Fail(d.rollback.error) && Rollback in events))
  {
  }

  /** Every command, and then every callback, succeeded. */
  predicate AllSucceeded(n: nat, d: Driver, callback: ResultCallback)
  {
    FirstFailure(d.exec, n, 0) == n
    && (callback.Some? ==> forall i :: 0 <= i < n ==> callback.value(i, d.exec(i).value).Ok?)
  }

  /** The callbacks reported are (i, affected[i]) for a prefix of the counts;
      reporting threw iff the callback threw on some count, and otherwise every
      count was reported. */
  lemma ReportedCalls(callback: ResultCallback, affected: seq<int>)
    ensures var rep := Reported(callback, affected);
      |rep.1| <= |affected|
      && (forall p :: 0 <= p < |rep.1| ==> rep.1[p] == Callback(p, affected[p]))
      && (callback.None? ==> rep.1 == [])
      && (rep.0 <==> callback.Some? && exists i :: 0 <= i < |affected| && callback.value(i, affected[i]).Fail?)
      && (callback.Some? && !rep.0 ==> |rep.1| == |affected|)
  {
    match callback
    case None =>
    case Some(cb) =>
      var outcome := CallbackOutcome(cb, affected);
      var j := FirstFailure(outcome, |affected|, 0);
      if j < |affected| {
        assert outcome(j) == cb(j, affected[j]);
      } else {
        forall i | 0 <= i < |affected|
          ensures cb(i, affected[i]).Ok?
        {
          assert outcome(i) == cb(i, affected[i]);
        }
      }
  }

  /** Each call after the executions: a callback reports one command, and
      Commit, in a transaction, comes last and after everything succeeded. */
  lemma AfterExecsCalls(n: nat, useTransaction: bool, d: Driver, callback: ResultCallback, p: int)
    requires 0 <= p < |AfterExecs(n, useTransaction, d, callback).1|
    ensures var a := AfterExecs(n, useTransaction, d, callback);
      FirstFailure(d.exec, n, 0) == n
      && ((a.1[p].Callback? && callback.Some? && p < n && a.1[p] == Callback(p, d.exec(p).value))
          || (a.1[p] == Commit && p == |a.1| - 1 && useTransaction && AllSucceeded(n, d, callback)
              && (a.0 <==> d.commit.Fail?)))
  {
    var affected := Affected(d.exec, n);
    var rep := Reported(callback, affected);
    ReportedCalls(callback, affected);
    var tail: seq<Event> := if !rep.0 && useTransaction then [Commit] else [];
    assert AfterExecs(n, useTransaction, d, callback).1 == rep.1 + tail;
    if p >= |rep.1| {
      assert (rep.1 + tail)[p] == tail[p - |rep.1|];
    }
  }

  /** Each call of the try block: command i is executed at position i; a
      callback comes only after all n commands succeeded and reports one of them;
      Commit, in a transaction, comes last and after everything succeeded. */
  lemma TryBlockCalls(n: nat, useTransaction: bool, d: Driver, callback: ResultCallback, p: int)
    requires 0 <= p < |TryBlock(n, useTransaction, d, callback).1|
    ensures var t := TryBlock(n, useTransaction, d, callback);
      (p < n && t.1[p] == Exec(p))
      || (t.1[p].Callback? && callback.Some? && FirstFailure(d.exec, n, 0) == n && n <= p < 2 * n
          && t.1[p] == Callback(p - n, d.exec(p - n).value))
      || (t.1[p] == Commit && p == |t.1| - 1 && useTransaction && AllSucceeded(n, d, callback)
          && (t.0 <==> d.commit.Fail?))
  {
    var e := Executed(d.exec, n);
    var a := AfterExecs(n, useTransaction, d, callback);
    var t := TryBlock(n, useTransaction, d, callback);
    assert t.0 == a.0 && t.1 == Execs(e) + a.1;
    if p < e {
      assert t.1[p] == Exec(p) && p < n;
    } else {
      assert t.1[p] == a.1[p - e];
      AfterExecsCalls(n, useTransaction, d, callback, p - e);
      assert e == n;
    }
  }

  /** The try block's calls position by position: command i at position i
      once every command succeeded; a callback only after all n commands
      succeeded, reporting one of them; Commit last, in a transaction, after
      everything succeeded, and the block threw iff Commit did. */
  predicate TryShape(t: (bool, seq<Event>), n: nat, useTransaction: bool, d: Driver, callback: ResultCallback)
  {
    (FirstFailure(d.exec, n, 0) == n ==> n <= |t.1| && forall i :: 0 <= i < n ==> t.1[i] == Exec(i))
    && (forall c :: 0 <= c < |t.1| && t.1[c].Callback? ==>
          callback.Some? && FirstFailure(d.exec, n, 0) == n && n <= c < 2 * n
          && t.1[c] == Callback(c - n, d.exec(c - n).value))
    && (forall c :: 0 <= c < |t.1| && t.1[c] == Commit ==>
          c == |t.1| - 1 && useTransaction && AllSucceeded(n, d, callback) && (t.0 <==> d.commit.Fail?))
  }

  lemma TryBlockShape(n: nat, useTransaction: bool, d: Driver, callback: ResultCallback)
    ensures TryShape(TryBlock(n, useTransaction, d, callback), n, useTransaction, d, callback)
  {
    var t := TryBlock(n, useTransaction, d, callback);
    if FirstFailure(d.exec, n, 0) == n {
      forall i | 0 <= i < n
        ensures t.1[i] == Exec(i)
      {
        assert (Execs(n) + AfterExecs(n, useTransaction, d, callback).1)[i] == Execs(n)[i];
      }
    }
    forall c | 0 <= c < |t.1| && t.1[c].Callback?
      ensures callback.Some? && FirstFailure(d.exec, n, 0) == n && n <= c < 2 * n
      ensures t.1[c] == Callback(c - n, d.exec(c - n).value)
    {
      TryBlockCalls(n, useTransaction, d, callback, c);
    }
    forall c | 0 <= c < |t.1| && t.1[c] == Commit
      ensures c == |t.1| - 1 && useTransaction && AllSucceeded(n, d, callback) && (t.0 <==> d.commit.Fail?)
    {
      TryBlockCalls(n, useTransaction, d, callback, c);
    }
  }

  /** Where each event of a Batch past its guards comes from: Begin first in
      a transaction, then the try block's calls, then Rollback and the disposal. */
  lemma FinishEventAt(t: (bool, seq<Event>), useTransaction: bool, rollback: Result<Unit>, p: int)
    requires 0 <= p < |Finish(t, useTransaction, rollback).1|
    ensures var events := Finish(t, useTransaction, rollback).1;
      var offset := if useTransaction then 1 else 0;
      |events| == offset + |t.1| + (if t.0 && useTransaction then 1 else 0) + offset
      && (p < offset ==> events[p] == Begin)
      && (offset <= p < offset + |t.1| ==> events[p] == t.1[p - offset])
      && (p >= offset + |t.1| ==> events[p] == Rollback || events[p] == DisposeTransaction)
  {
    var events := Finish(t, useTransaction, rollback).1;
    var began: seq<Event> := if useTransaction then [Begin] else [];
    var rolledBack: seq<Event> := if t.0 && useTransaction then [Rollback] else [];
    var disposed: seq<Event> := if useTransaction then [DisposeTransaction] else [];
    assert events == began + t.1 + (rolledBack + disposed);
    if p >= |began| + |t.1| {
      assert events[p] == (rolledBack + disposed)[p - |began| - |t.1|];
    }
  }

  /** A Batch that made calls other than a lone Begin went past its guards:
      its outcome and calls are those of Finish over the try block. */
  lemma PastGuards(connections: seq<string>, useTransaction: bool, d: Driver, callback: ResultCallback)
    ensures var b := BatchSpec(connections, useTransaction, d, callback);
      b.1 == [] || b.1 == [Begin]
      || (|connections| > 0 && AllSame(connections) && !(useTransaction && d.begin.Fail?)
          && b == Finish(TryBlock(|connections|, useTransaction, d, callback), useTransaction, d.rollback))
  {
  }

  /** A callback after a try block of that shape reports one command, and
      comes after all n executions. */
  lemma FinishCallback(t: (bool, seq<Event>), n: nat, useTransaction: bool, d: Driver, callback: ResultCallback, p: int)
    requires TryShape(t, n, useTransaction, d, callback)
    requires 0 <= p < |Finish(t, useTransaction, d.rollback).1|
    requires Finish(t, useTransaction, d.rollback).1[p].Callback?
    ensures var events := Finish(t, useTransaction, d.rollback).1;
      var q := events[p].position;
      callback.Some? && FirstFailure(d.exec, n, 0) == n && 0 <= q < n && events[p] == Callback(q, d.exec(q).value)
      && (if useTransaction then 1 else 0) + n <= p
  {
    var offset := if useTransaction then 1 else 0;
    FinishEventAt(t, useTransaction, d.rollback, p);
    assert t.1[p - offset].Callback?;
  }

  /** The first n calls of a try block are the executions of commands
      0 .. n-1; every event from Begin plus n on comes after all of them. */
  lemma FinishExecsBefore(t: (bool, seq<Event>), n: nat, useTransaction: bool, rollback: Result<Unit>, p: int)
    requires n <= |t.1| && forall i :: 0 <= i < n ==> t.1[i] == Exec(i)
    requires (if useTransaction then 1 else 0) + n <= p <= |Finish(t, useTransaction, rollback).1|
    ensures forall i :: 0 <= i < n ==> Exec(i) in Finish(t, useTransaction, rollback).1[..p]
  {
    var events := Finish(t, useTransaction, rollback).1;
    var offset := if useTransaction then 1 else 0;
    forall i | 0 <= i < n
      ensures Exec(i) in events[..p]
    {
      FinishEventAt(t, useTransaction, rollback, offset + i);
      assert events[..p][offset + i] == Exec(i);
    }
  }

  /** Commit after a try block of that shape comes after everything succeeded. */
  lemma FinishCommit(t: (bool, seq<Event>), n: nat, useTransaction: bool, d: Driver, callback: ResultCallback, p: int)
    requires TryShape(t, n, useTransaction, d, callback)
    requires 0 <= p < |Finish(t, useTransaction, d.rollback).1|
    requires Finish(t, useTransaction, d.rollback).1[p] == Commit
    ensures useTransaction && AllSucceeded(n, d, callback) && (t.0 <==> d.commit.Fail?)
  {
    var offset := if useTransaction then 1 else 0;
    FinishEventAt(t, useTransaction, d.rollback, p);
    assert t.1[p - offset] == Commit;
  }

  /** A callback reports the position and the affected count of one command,
      and is made only when a callback was given. */
  lemma CallbackReportsCommand(connections: seq<string>, useTransaction: bool, d: Driver, callback: ResultCallback, p: int)
    requires 0 <= p < |BatchSpec(connections, useTransaction, d, callback).1|
    requires BatchSpec(connections, useTransaction, d, callback).1[p].Callback?
    ensures var events := BatchSpec(connections, useTransaction, d, callback).1;
      var q := events[p].position;
      callback.Some? && 0 <= q < |connections| && d.exec(q).Ok? && events[p] == Callback(q, d.exec(q).value)
  {
    PastGuards(connections, useTransaction, d, callback);
    TryBlockShape(|connections|, useTransaction, d, callback);
    FinishCallback(TryBlock(|connections|, useTransaction, d, callback), |connections|, useTransaction, d, callback, p);
  }

  /** Callbacks are made only after every command has executed successfully:
      each execution precedes every callback. */
  lemma CallbacksAfterExecution(connections: seq<string>, useTransaction: bool, d: Driver, callback: ResultCallback, p: int)
    requires 0 <= p < |BatchSpec(connections, useTransaction, d, callback).1|
    requires BatchSpec(connections, useTransaction, d, callback).1[p].Callback?
    ensures var events := BatchSpec(connections, useTransaction, d, callback).1;
      forall i :: 0 <= i < |connections| ==> d.exec(i).Ok? && Exec(i) in events[..p]
  {
    var t := TryBlock(|connections|, useTransaction, d, callback);
    PastGuards(connections, useTransaction, d, callback);
    TryBlockShape(|connections|, useTransaction, d, callback);
    FinishCallback(t, |connections|, useTransaction, d, callback, p);
    FinishExecsBefore(t, |connections|, useTransaction, d.rollback, p);
  }

  /** Commit is attempted only in a transaction, after every command and every
      callback succeeded. */
  lemma CommitOnlyAfterSuccess(connections: seq<string>, useTransaction: bool, d: Driver, callback: ResultCallback, p: int)
    requires 0 <= p < |BatchSpec(connections, useTransaction, d, callback).1|
    requires BatchSpec(connections, useTransaction, d, callback).1[p] == Commit
    ensures useTransaction && (forall i :: 0 <= i < |connections| ==> d.exec(i).Ok?)
    ensures callback.Some? ==> forall i :: 0 <= i < |connections| ==> callback.value(i, d.exec(i).value).Ok?
  {
    PastGuards(connections, useTransaction, d, callback);
    TryBlockShape(|connections|, useTransaction, d, callback);
    FinishCommit(TryBlock(|connections|, useTransaction, d, callback), |connections|, useTransaction, d, callback, p);
  }

  /** Without a transaction, only commands and callbacks are invoked: nothing
      is begun, committed, rolled back or disposed. */
  lemma NoTransactionNoControl(connections: seq<string>, d: Driver, callback: ResultCallback, p: int)
    requires 0 <= p < |BatchSpec(connections, false, d, callback).1|
    ensures BatchSpec(connections, false, d, callback).1[p].Exec? || BatchSpec(connections, false, d, callback).1[p].Callback?
  {
    var n := |connections|;
    var t := TryBlock(n, false, d, callback);
    PastGuards(connections, false, d, callback);
    FinishEventAt(t, false, d.rollback, p);
    TryBlockCalls(n, false, d, callback, p);
  }

  /** In a transaction, Rollback is among the calls exactly when the try block
      threw, and a try block that did not throw ended with a Commit that
      succeeded. */
  lemma FinishRollback(n: nat, d: Driver, callback: ResultCallback)
    ensures var t := TryBlock(n, true, d, callback);
      var events := Finish(t, true, d.rollback).1;
      events[0] == Begin && events[|events| - 1] == DisposeTransaction
      && (Rollback in events <==> t.0)
      && (!t.0 ==> d.commit.Ok? && Commit in events)
  {
    var t := TryBlock(n, true, d, callback);
    var events := Finish(t, true, d.rollback).1;
    var rolledBack: seq<Event> := if t.0 then [Rollback] else [];
    assert events == [Begin] + t.1 + rolledBack + [DisposeTransaction];
    if Rollback in t.1 {
      var c :| 0 <= c < |t.1| && t.1[c] == Rollback;
      TryBlockCalls(n, true, d, callback, c);
    }
    if !t.0 {
      assert |t.1| > 0 && t.1[|t.1| - 1] == Commit;
      assert events[|t.1|] == Commit;
    }
  }

  /** A begun transaction is disposed on every exit path, and rolled back
      exactly when it was not committed successfully. */
  lemma TransactionDisposed(connections: seq<string>, d: Driver, callback: ResultCallback)
    requires |connections| > 0 && AllSame(connections) && d.begin.Ok?
    ensures var events := BatchSpec(connections, true, d, callback).1;
      events[0] == Begin && events[|events| - 1] == DisposeTransaction
      && (Rollback in events <==> !(Commit in events && d.commit.Ok?))
  {
    var n := |connections|;
    var t := TryBlock(n, true, d, callback);
    var events := BatchSpec(connections, true, d, callback).1;
    assert events == Finish(t, true, d.rollback).1;
    FinishRollback(n, d, callback);
    if Commit in events {
      var p :| 0 <= p < |events| && events[p] == Commit;
      TryBlockShape(n, true, d, callback);
      FinishCommit(t, n, true, d, callback, p);
    }
  }
}
