// DataCommand of Micron.SqlClient: one DbCommand and a retry handler. Every
// operation opens and executes the command inside the retry handler and
// closes the connection in `finally`; the `using var cmd = this.command` in
// Try disposes the command, so a DataCommand serves one operation.
module SqlDataCommand {
  import opened Common
  import R = MicronRetryHandler
  import B = MicronBackoffInterval
  import H = SqlDbCommandHandler

  class DataCommand {
    const handler: R.RetryHandler
    /** The owned DbCommand (and its connection) has been disposed. */
    var commandDisposed: bool

    constructor (handler: R.RetryHandler)
      ensures this.handler == handler && !commandDisposed
    {
      this.handler := handler;
      commandDisposed := false;
    }

    /** Try(exec): the retried attempts, then Close; the command is disposed. */
    method Try<T>(open: nat -> Result<Unit>, exec: nat -> Result<T>) returns (r: Result<T>, events: seq<Event>)
      modifies this
      ensures (r, events) == H.TrySpec(handler, open, exec)
      ensures commandDisposed
    {
      r, events := H.Try(handler, open, exec);
      commandDisposed := true;
    }

    /** Try(ct, exec): a token cancelled before the loop throws before the
        `using` declarations, so the command is then left undisposed. */
    method TryAsync<T>(cancelled: bool, cancelledAt: nat -> bool, open: nat -> Result<Unit>, exec: nat -> Result<T>)
      returns (r: Result<T>, events: seq<Event>)
      modifies this
      ensures (r, events) == H.TryAsyncSpec(handler, cancelled, cancelledAt, open, exec)
      ensures commandDisposed == (old(commandDisposed) || !cancelled)
    {
      r, events := H.TryAsync(handler, cancelled, cancelledAt, open, exec);
      if !cancelled {
        commandDisposed := true;
      }
    }

    method Read<Rw>(open: nat -> Result<Unit>, reader: nat -> Result<seq<Rw>>, callback: Rw -> Result<Unit>)
      returns (r: Result<Unit>, events: seq<Event>)
      modifies this
      ensures (r, events) == H.TrySpec(handler, open, H.ReadOp(reader, callback)) && commandDisposed
    {
      r, events := Try(open, H.ReadOp(reader, callback));
    }

    method Scalar<T>(open: nat -> Result<Unit>, value: nat -> Result<DbValue<T>>, fallback: T)
      returns (r: Result<T>, events: seq<Event>)
      modifies this
      ensures (r, events) == H.TrySpec(handler, open, H.ScalarOp(value, fallback)) && commandDisposed
    {
      r, events := Try(open, H.ScalarOp(value, fallback));
    }

    method String(open: nat -> Result<Unit>, value: nat -> Result<DbValue<string>>)
      returns (r: Result<Option<string>>, events: seq<Event>)
      modifies this
      ensures (r, events) == H.TrySpec(handler, open, H.StringOp(value)) && commandDisposed
    {
      r, events := Try(open, H.StringOp(value));
    }

    method Execute(open: nat -> Result<Unit>, affected: nat -> Result<int>)
      returns (r: Result<int>, events: seq<Event>)
      modifies this
      ensures (r, events) == H.TrySpec(handler, open, affected) && commandDisposed
    {
      r, events := Try(open, affected);
    }

    method ReadAsync<Rw>(cancelled: bool, cancelledAt: nat -> bool, open: nat -> Result<Unit>,
                         reader: nat -> Result<seq<Rw>>, callback: Rw -> Result<Unit>)
      returns (r: Result<Unit>, events: seq<Event>)
      modifies this
      ensures (r, events) == H.TryAsyncSpec(handler, cancelled, cancelledAt, open, H.ReadOp(reader, callback))
      ensures commandDisposed == (old(commandDisposed) || !cancelled)
    {
      r, events := TryAsync(cancelled, cancelledAt, open, H.ReadOp(reader, callback));
    }

    method ScalarAsync<T>(cancelled: bool, cancelledAt: nat -> bool, open: nat -> Result<Unit>,
                          value: nat -> Result<DbValue<T>>, fallback: T)
      returns (r: Result<T>, events: seq<Event>)
      modifies this
      ensures (r, events) == H.TryAsyncSpec(handler, cancelled, cancelledAt, open, H.ScalarOp(value, fallback))
      ensures commandDisposed == (old(commandDisposed) || !cancelled)
    {
      r, events := TryAsync(cancelled, cancelledAt, open, H.ScalarOp(value, fallback));
    }

    method StringAsync(cancelled: bool, cancelledAt: nat -> bool, open: nat -> Result<Unit>,
                       value: nat -> Result<DbValue<string>>)
      returns (r: Result<Option<string>>, events: seq<Event>)
      modifies this
      ensures (r, events) == H.TryAsyncSpec(handler, cancelled, cancelledAt, open, H.StringOp(value))
      ensures commandDisposed == (old(commandDisposed) || !cancelled)
    {
      r, events := TryAsync(cancelled, cancelledAt, open, H.StringOp(value));
    }

    method ExecuteAsync(cancelled: bool, cancelledAt: nat -> bool, open: nat -> Result<Unit>,
                        affected: nat -> Result<int>)
      returns (r: Result<int>, events: seq<Event>)
      modifies this
      ensures (r, events) == H.TryAsyncSpec(handler, cancelled, cancelledAt, open, affected)
      ensures commandDisposed == (old(commandDisposed) || !cancelled)
    {
      r, events := TryAsync(cancelled, cancelledAt, open, affected);
    }
  }

  /** No catch around the retry handler: whatever Try returns is the outcome
      of the last attempt (open, then exec) or the backoff exception after it,
      never a wrapped exception. */
  lemma TryPropagatesUnchanged<T>(h: R.RetryHandler, open: nat -> Result<Unit>, exec: nat -> Result<T>)
    ensures var r := H.TrySpec(h, open, exec).0;
      r.Fail? ==> (exists a: nat :: open(a) == Fail(r.error) || (open(a).Ok? && exec(a) == Fail(r.error)))
                  || (exists k :: B.Backoff(h.backoff, k) == Fail(r.error))
  {
    var run := R.Attempts(h, H.TryOp(open, exec), 0);
    H.TryReopensPerAttempt(h, open, exec);
    var last: nat := run.invocations - 1;
    assert H.TryOp(open, exec)(last) == (if open(last).Fail? then Fail(open(last).error) else exec(last));
  }
}
