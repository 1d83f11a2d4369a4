// SessionExceptionDecorator of Micron.SqlClient: every operation of the inner
// session, Commit and Dispose included, runs inside the SqlClient Try, which
// turns an exception into a MicronException with the original as cause and
// logs nothing. There is no retry and no logging in this layer. The async
// forms use Try.ToAsync, which behaves as Try.To.
module SqlSessionExceptionDecorator {
  import opened Common
  import T = SqlClientTry
  import S = SqlSession

  /** Execute, Read, ReadMultiple, Scalar and their async forms: Try around
      the inner session's call, whose effect is `inner`. The value comes back
      unchanged, a failure wrapped once, and the events are the inner call's. */
  function Call<V>(inner: Traced<V>): (r: Traced<V>)
    ensures inner.0.Ok? ==> r == inner
    ensures inner.0.Fail? ==> r.0 == Fail(Wrapped(inner.0.error))
    ensures r.1 == inner.1
  {
    T.To(inner)
  }

  /** Commit and CommitAsync over a Session: its commit, through Try. */
  method Commit(session: S.Session, commit: Result<Unit>) returns (r: Result<Unit>)
    modifies session`events
    ensures session.transaction.Nullo? ==> r == Ok(Unit) && session.events == old(session.events)
    ensures session.transaction.Adapter? && commit.Ok? ==> r == commit && session.events == old(session.events) + [Event.Commit]
    ensures session.transaction.Adapter? && commit.Fail? ==>
              r == Fail(Wrapped(commit.error)) && session.events == old(session.events)
  {
    var inner := session.Commit(commit);
    assert session.transaction.Adapter? ==> inner == commit;
    r := Call((inner, [])).0;

  }

  /** Dispose and DisposeAsync over a Session: its dispose, through Try. */
  method Dispose(session: S.Session) returns (r: Result<Unit>)
    modifies session`disposed, session`events
    ensures r == Ok(Unit) && session.disposed
    ensures old(session.disposed) ==> session.events == old(session.events)
    ensures !old(session.disposed) ==> session.events == old(session.events) + S.Release(session.transaction)
  {
    session.Dispose();
    r := Call((Ok(Unit), [])).0;
  }
}
