// SessionRetryDecorator of Micron.SqlClient: Read, ReadMultiple, Scalar and
// Execute, and the async forms of the last three, run the inner session's call
// inside one retry-handler call; Commit, CommitAsync, Dispose and DisposeAsync
// are handed to the inner session once and never retried (Forwarded). ReadAsync hands the
// retry handler a lambda that calls this decorator's own ReadAsync again, so
// the inner session is never reached. The retry handler is the post-increment
// loop of Retry/RetryHandler.cs.
module SqlSessionRetryDecorator {
  import opened Common
  import R = SqlRetryHandler
  import B = SqlBackoffInterval
  import Rt = DbCommandHandlerRetryDecorator

  /** retryHandler.Execute(() => inner.X(request)): `inner(a)` is what the
      inner session's call does on attempt a. The inner call is made m >= 1
      times, its events are those of the m calls in order, and the outcome is
      the last call's or the exception of the backoff after it. */
  function Retried<T>(h: R.RetryHandler, inner: nat -> Traced<T>): (r: Traced<T>)
    ensures exists m: nat :: m >= 1 && r.1 == Rt.Trace(inner, m)
                             && (r.0 == inner(m - 1).0
                                 || (B.Backoff(h.backoff, m).Fail? && r.0 == Fail(B.Backoff(h.backoff, m).error)))
  {
    var run := R.Attempts(h, Rt.Outcomes(inner), 0);
    R.AttemptsShape(h, Rt.Outcomes(inner), 0);
    assert Rt.Outcomes(inner)(run.invocations - 1) == inner(run.invocations - 1).0;
    (run.result, Rt.Trace(inner, run.invocations))
  }

  /** Commit, CommitAsync, Dispose and DisposeAsync: `=> this.inner.X()`, the
      inner session's call made once, outside the retry handler. */
  function Forwarded<T>(h: R.RetryHandler, inner: nat -> Traced<T>): Traced<T>
  {
    inner(0)
  }

  /** A forwarded call is the inner session's first call, outcome and events,
      whatever the handler's conditions, retry count and backoff. */
  lemma ForwardedOnce<T>(h: R.RetryHandler, inner: nat -> Traced<T>)
    ensures Forwarded(h, inner).0 == inner(0).0
    ensures Forwarded(h, inner).1 == Rt.Trace(inner, 1)
    ensures forall g: R.RetryHandler :: Forwarded(g, inner) == Forwarded(h, inner)
  {
    assert Rt.Trace(inner, 1) == [] + inner(0).1;
  }

  /** The contrast between the two forms: under a condition that accepts the
      exception and a validated interval, an inner call that always fails is
      made RetryCount + 2 times when retried, and once when forwarded. */
  lemma RetriedAndForwardedOnPersistentFailure<T>(h: R.RetryHandler, inner: nat -> Traced<T>, c: B.IntervalCalculation, e: Exn)
    requires B.Validate(c).Ok? && h.backoff == B.Interval(c)
    requires 0 <= h.retryCount < R.R.MaxRetries
    requires forall a: nat :: inner(a).0 == Fail(e)
    requires AnyMatches(h.conditions, e)
    ensures Retried(h, inner) == (Fail(e), Rt.Trace(inner, h.retryCount + 2))
    ensures Forwarded(h, inner) == (Fail(e), Rt.Trace(inner, 1))
  {
    assert forall a: nat :: Rt.Outcomes(inner)(a) == Fail(e);
    R.PersistentFailure(h, Rt.Outcomes(inner), c, e, 0);
    ForwardedOnce(h, inner);
  }

  /** ReadAsync as written. Each call starts another before anything else
      happens, so the nesting never ends; `depth` bounds how much of it the
      model unfolds, and an exhausted depth stands for the stack overflow that
      ends the process. */
  function ReadAsyncAsWritten<T>(h: R.RetryHandler, depth: nat): (r: Traced<T>)
    ensures r.1 == []
    decreases depth, 1
  {
    if depth == 0 then (Fail(StackOverflow), [])
    else
      var attempt := Nested<T>(h, depth - 1);
      assert forall a: nat :: attempt(a) == ReadAsyncAsWritten<T>(h, depth - 1);
      Rt.NothingTraced(attempt, R.Attempts(h, Rt.Outcomes(attempt), 0).invocations);
      Retried(h, attempt)
  }

  /** The lambda of ReadAsync as written: the same nested call on every attempt. */
  function Nested<T>(h: R.RetryHandler, depth: nat): nat -> Traced<T>
    decreases depth, 2
  {
    (a: nat) => ReadAsyncAsWritten(h, depth)
  }

  /** ReadAsync as the other async operations have it:
      retryHandler.ExecuteAsync(() => inner.ReadAsync(request, ct)). */
  function ReadAsync<T>(h: R.RetryHandler, inner: nat -> Traced<T>): (r: Traced<T>)
    ensures inner(0).0.Ok? || !AnyMatches(h.conditions, inner(0).0.error) ==> r == inner(0)
  {
    if inner(0).0.Ok? || !AnyMatches(h.conditions, inner(0).0.error) then
      RetriedOnceWhenSettled(h, inner);
      Retried(h, inner)
    else Retried(h, inner)
  }

  /** A call that returns on its first attempt is made once and its value is
      returned unchanged; an exception no condition accepts ends the call
      after that one attempt, unchanged. */
  lemma RetriedOnceWhenSettled<T>(h: R.RetryHandler, inner: nat -> Traced<T>)
    requires inner(0).0.Ok? || !AnyMatches(h.conditions, inner(0).0.error)
    ensures Retried(h, inner) == inner(0)
  {
    assert Rt.Outcomes(inner)(0) == inner(0).0;
    if inner(0).0.Ok? {
      R.SucceedsFirst(h, Rt.Outcomes(inner));
    } else {
      R.UnmatchedRethrown(h, Rt.Outcomes(inner));
    }
    assert Rt.Trace(inner, 1) == [] + inner(0).1 == inner(0).1;
  }

  /** ReadAsync as written never returns a value and never calls the inner
      session, however deep the model unfolds it. */
  lemma {:induction false} ReadAsyncNeverReachesInner<T>(h: R.RetryHandler, depth: nat)
    ensures ReadAsyncAsWritten<T>(h, depth).0.Fail?
    ensures ReadAsyncAsWritten<T>(h, depth).1 == []
  {
    if depth > 0 {
      ReadAsyncNeverReachesInner<T>(h, depth - 1);
      var attempt := Nested<T>(h, depth - 1);
      assert forall a: nat :: attempt(a) == ReadAsyncAsWritten<T>(h, depth - 1);
      R.AttemptsShape(h, Rt.Outcomes(attempt), 0);
    }
  }

  /** ReadAsync as intended reaches the inner session: a first attempt that
      returns, or fails with an exception no condition accepts, is the whole
      outcome, calls of the inner session included. */
  lemma ReadAsyncReachesInner<T>(h: R.RetryHandler, inner: nat -> Traced<T>)
    requires inner(0).0.Ok? || !AnyMatches(h.conditions, inner(0).0.error)
    ensures ReadAsync(h, inner) == inner(0)
  {
    RetriedOnceWhenSettled(h, inner);
  }
}
