// Session of Micron.SqlClient: a connection with an optional isolation level.
// Opening opens the connection and, when a level was given, begins a
// transaction at that level; until then the session holds a no-op
// transaction. Commit goes to the current transaction. Dispose releases the
// transaction and the connection once; DisposeAsync releases them without
// looking at the flag. The connection and the transaction are the driver's:
// the model records the calls made on them as events, and the outcome of the
// driver calls that can fail is a parameter.
module SqlSession {
  import opened Common

  /** The session's ITransaction: NulloTransaction, or a DbTransactionAdapter
      over a transaction begun at `level`. */
  datatype Transaction = Nullo | Adapter(level: int)

  /** The driver calls that disposing `t` makes: none for the no-op transaction. */
  function TransactionDisposal(t: Transaction): (r: seq<Event>)
    ensures r == [] <==> t.Nullo?
  {
    if t.Adapter? then [DisposeTransaction] else []
  }

  /** What releasing the session does on the driver: the transaction, then
      Close and Dispose on the connection. */
  function Release(t: Transaction): (r: seq<Event>)
    ensures |r| == |TransactionDisposal(t)| + 2
    ensures r[|r| - 2..] == [Close, DisposeConnection]
  {
    TransactionDisposal(t) + [Close, DisposeConnection]
  }

  class Session {
    var disposed: bool
    const isolationLevel: Option<int>
    var transaction: Transaction
    /** The calls made on the connection and the transaction, in order. */
    var events: seq<Event>

    /** A begun transaction is at the session's isolation level. */
    predicate Valid()
      reads this
    {
      transaction.Adapter? ==> isolationLevel.Some? && transaction.level == isolationLevel.value
    }

    /** Session(connection, isolationLevel): a new session holds a no-op transaction. */
    constructor(isolationLevel: Option<int>)
      ensures Valid()
      ensures this.isolationLevel == isolationLevel && transaction == Nullo
      ensures !disposed && events == []
    {
      this.isolationLevel := isolationLevel;
      transaction := Nullo;
      disposed := false;
      events := [];
    }

    /** Open and OpenAsync: `open` is what connection.Open does and `begin`
        what BeginTransaction does; a transaction is begun iff a level was
        given, and only once the connection is open. */
    method Open(open: Result<Unit>, begin: Result<Unit>) returns (r: Result<Unit>)
      requires Valid()
      modifies this
      ensures Valid()
      ensures disposed == old(disposed)
      ensures open.Fail? ==> r == open && transaction == old(transaction) && events == old(events)
      ensures open.Ok? && isolationLevel.None? ==>
                r == Ok(Unit) && transaction == old(transaction) && events == old(events) + [Event.Open]
      ensures open.Ok? && isolationLevel.Some? && begin.Fail? ==>
                r == begin && transaction == old(transaction) && events == old(events) + [Event.Open]
      ensures open.Ok? && isolationLevel.Some? && begin.Ok? ==>
                r == Ok(Unit) && transaction == Adapter(isolationLevel.value) && events == old(events) + [Event.Open, Begin]
    {
      if open.Fail? {
        return open;
      }
      events := events + [Event.Open];
      if isolationLevel.Some? {
        if begin.Fail? {
          return begin;
        }
        events := events + [Begin];
        transaction := Adapter(isolationLevel.value);
      }
      r := Ok(Unit);
    }

    /** Commit and CommitAsync: a no-op on the no-op transaction; otherwise
        the driver's commit, whose outcome is `commit`. */
    method Commit(commit: Result<Unit>) returns (r: Result<Unit>)
      modifies this`events
      ensures transaction.Nullo? ==> r == Ok(Unit) && events == old(events)
      ensures transaction.Adapter? ==> r == commit && events == old(events) + (if commit.Ok? then [Event.Commit] else [])
    {
      if transaction.Nullo? {
        return Ok(Unit);
      }
      if commit.Ok? {
        events := events + [Event.Commit];
      }
      r := commit;
    }

    /** Dispose(): Dispose(true), which releases everything the first time and
        does nothing afterwards. */
    method Dispose()
      modifies this`disposed, this`events
      ensures disposed
      ensures old(disposed) ==> events == old(events)
      ensures !old(disposed) ==> events == old(events) + Release(transaction)
    {
      DisposeCore(true);
    }

    /** Dispose(disposing): the flag is set whatever `disposing` says; only a
        disposing call releases anything. */
    method DisposeCore(disposing: bool)
      modifies this`disposed, this`events
      ensures disposed
      ensures old(disposed) || !disposing ==> events == old(events)
      ensures !old(disposed) && disposing ==> events == old(events) + Release(transaction)
    {
      if disposed {
        return;
      }
      if disposing {
        events := events + Release(transaction);
      }
      disposed := true;
    }

    /** DisposeAsync(): releases the transaction and the connection without
        looking at the flag, then sets it through Dispose(false). */
    method DisposeAsync()
      modifies this`disposed, this`events
      ensures disposed
      ensures events == old(events) + Release(transaction)
    {
      events := events + Release(transaction);
      DisposeCore(false);
    }
  }

  /** Without an isolation level, a session that opens, commits and is
      disposed makes no transaction call at all: the commit is the no-op
      transaction's. */
  method NoLevelNoTransaction(commit: Result<Unit>) returns (s: Session)
    ensures s.events == [Open, Close, DisposeConnection]
  {
    s := new Session(None);
    var openResult := s.Open(Ok(Unit), Ok(Unit));
    var committed := s.Commit(commit);
    s.Dispose();
  }

  /** A second Dispose does nothing, where a second DisposeAsync releases the
      transaction and the connection again. */
  method DisposeTwice(level: int) returns (syncSession: Session, asyncSession: Session)
    ensures syncSession.events == [Open, Begin, DisposeTransaction, Close, DisposeConnection]
    ensures asyncSession.events == [Open, Begin] + Release(Adapter(level)) + Release(Adapter(level))
  {
    syncSession := new Session(Some(level));
    var r := syncSession.Open(Ok(Unit), Ok(Unit));
    syncSession.Dispose();
    syncSession.Dispose();
    asyncSession := new Session(Some(level));
    r := asyncSession.Open(Ok(Unit), Ok(Unit));
    asyncSession.DisposeAsync();
    asyncSession.DisposeAsync();
  }
}
