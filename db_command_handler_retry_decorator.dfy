// DbCommandHandlerRetryDecorator of Micron: every operation is a lambda handed
// to the Micron retry handler. The handler's interface declares an attempt
// argument for the lambda, which the handler class never supplies; the model
// passes the count of earlier attempts. The lambda logs "Attempt n..."
// (n = attempts + 1), calls the inner handler with the same arguments, and
// logs "Attempt n successful!" when the call returns. The async lambdas
// first throw if the token has been cancelled.
module DbCommandHandlerRetryDecorator {
  import opened Common
  import R = MicronRetryHandler

  const Attempting := "Attempt {AttemptNumber}..."
  const Succeeded := "Attempt {AttemptNumber} successful!"

  /** The lambda of attempt a, where `inner` is what the inner call did. */
  function Attempt<T>(inner: Traced<T>, a: nat): (r: Traced<T>)
    ensures r.0 == inner.0
    ensures |r.1| == |inner.1| + (if inner.0.Ok? then 2 else 1)
    ensures r.1[0] == Log(Debug, Attempting, [Num(a + 1)]) && r.1[1..|inner.1| + 1] == inner.1
    ensures inner.0.Ok? ==> r.1[|r.1| - 1] == Log(Debug, Succeeded, [Num(a + 1)])
    ensures Calls(r.1) == Calls(inner.1)
  {
    var before := [Log(Debug, Attempting, [Num(a + 1)])];
    var after := if inner.0.Ok? then [Log(Debug, Succeeded, [Num(a + 1)])] else [];
    FilterAppend(before, inner.1, IsCall);
    FilterAppend(before + inner.1, after, IsCall);
    assert Filter(after, IsCall) == [] by {
      if inner.0.Ok? {
        assert Filter(after, IsCall) == Filter(after[1..], IsCall);
      }
    }
    (inner.0, before + inner.1 + after)
  }

  /** The async lambda of attempt a: a cancelled token throws before anything
      is logged or called. */
  function AttemptAsync<T>(requested: bool, inner: Traced<T>, a: nat): (r: Traced<T>)
    ensures requested ==> r == (Fail(OperationCanceled), [])
    ensures !requested ==> r == Attempt(inner, a)
  {
    if requested then (Fail(OperationCanceled), []) else Attempt(inner, a)
  }

  /** The events of attempts 0 .. m-1, one after the other. */
  function Trace<T>(attempt: nat -> Traced<T>, m: nat): seq<Event>
  {
    if m == 0 then [] else Trace(attempt, m - 1) + attempt(m - 1).1
  }

  /** The attempt lambdas, by attempt number. */
  function EachAttempt<T>(inner: nat -> Traced<T>): nat -> Traced<T>
  {
    (a: nat) => Attempt(inner(a), a)
  }

  function EachAttemptAsync<T>(ct: Token, inner: nat -> Traced<T>): nat -> Traced<T>
  {
    (a: nat) => AttemptAsync(ct(a), inner(a), a)
  }

  /** The outcomes of the attempts, as the retry handler sees them. */
  function Outcomes<T>(attempt: nat -> Traced<T>): nat -> Result<T>
  {
    (a: nat) => attempt(a).0
  }

  /** What the retry handler's Execute (or, when `async`, ExecuteAsync) does
      with an attempt lambda: the outcome it returns and the events of every
      attempt it made. */
  function RunAttempts<T>(h: R.RetryHandler, attempt: nat -> Traced<T>, async: bool): Traced<T>
  {
    var run := R.Attempts(h, Outcomes(attempt), 0, async);
    (run.result, Trace(attempt, run.invocations))
  }

  /** Execute, Read, Scalar, String and Transaction: retryHandler.Execute of
      the attempt lambda; `inner(a)` is what the inner call does on attempt a
      (the same command, callback and behaviour every time). */
  function Retried<T>(h: R.RetryHandler, inner: nat -> Traced<T>): Traced<T>
  {
    RunAttempts(h, EachAttempt(inner), false)
  }

  /** The async operations: retryHandler.ExecuteAsync of the async lambda;
      ct(a) says whether the token is cancelled when attempt a starts. */
  function RetriedAsync<T>(h: R.RetryHandler, ct: Token, inner: nat -> Traced<T>): Traced<T>
  {
    RunAttempts(h, EachAttemptAsync(ct, inner), true)
  }

  /** The inner call of each attempt, given the caller's token or none. */
  function WithToken<T>(inner: (nat, Token) -> Traced<T>, ct: Token): nat -> Traced<T>
  {
    (a: nat) => inner(a, ct)
  }

  /** The outcomes ExecuteAsync retries when each attempt's inner call is
      given the token `t`: a cancelled token fails the attempt before the call. */
  function GuardedOutcomes<T>(ct: Token, inner: (nat, Token) -> Traced<T>, t: Token): nat -> Result<T>
  {
    (a: nat) => if ct(a) then Fail(OperationCanceled) else inner(a, t).0
  }

  /** ExecuteAsync, ReadAsync and TransactionAsync forward the token to the
      inner call; `inner(a, t)` is the inner call of attempt a given token t. */
  function ExecuteAsync<T>(h: R.RetryHandler, ct: Token, inner: (nat, Token) -> Traced<T>): (r: Traced<T>)
    ensures r.0 == R.Attempts(h, GuardedOutcomes(ct, inner, ct), 0, true).result
  {
    var attempt := EachAttemptAsync(ct, WithToken(inner, ct));
    assert forall a: nat :: Outcomes(attempt)(a) == AttemptAsync(ct(a), inner(a, ct), a).0;
    R.AttemptsAgree(h, Outcomes(attempt), GuardedOutcomes(ct, inner, ct), 0, true);
    RetriedAsync(h, ct, WithToken(inner, ct))
  }

  /** ScalarAsync and StringAsync call the inner handler without the token,
      so it gets `default`. */
  function ScalarAsync<T>(h: R.RetryHandler, ct: Token, inner: (nat, Token) -> Traced<T>): (r: Traced<T>)
    ensures r.0 == R.Attempts(h, GuardedOutcomes(ct, inner, NoToken()), 0, true).result
  {
    var attempt := EachAttemptAsync(ct, WithToken(inner, NoToken()));
    assert forall a: nat :: Outcomes(attempt)(a) == AttemptAsync(ct(a), inner(a, NoToken()), a).0;
    R.AttemptsAgree(h, Outcomes(attempt), GuardedOutcomes(ct, inner, NoToken()), 0, true);
    RetriedAsync(h, ct, WithToken(inner, NoToken()))
  }

  /** Attempts whose calls agree leave traces whose calls agree. */
  lemma {:induction false} TraceCalls<T>(attempt: nat -> Traced<T>, inner: nat -> Traced<T>, m: nat)
    requires forall a: nat :: a < m ==> Calls(attempt(a).1) == Calls(inner(a).1)
    ensures Calls(Trace(attempt, m)) == Calls(Trace(inner, m))
  {
    if m > 0 {
      TraceCalls(attempt, inner, m - 1);
      FilterAppend(Trace(attempt, m - 1), attempt(m - 1).1, IsCall);
      FilterAppend(Trace(inner, m - 1), inner(m - 1).1, IsCall);
    }
  }

  /** Traces of pointwise equal attempts are equal. */
  lemma {:induction false} TraceAgree<T>(attempt1: nat -> Traced<T>, attempt2: nat -> Traced<T>, m: nat)
    requires forall a: nat :: a < m ==> attempt1(a) == attempt2(a)
    ensures Trace(attempt1, m) == Trace(attempt2, m)
  {
    if m > 0 {
      TraceAgree(attempt1, attempt2, m - 1);
    }
  }

  /** The decorator returns what the retry handler makes of the inner calls'
      own outcomes (the successful attempt's value unchanged), and each attempt
      calls the inner handler once, in attempt order, with nothing but log
      entries added: a transaction's callbacks fire again on every attempt
      that reaches them. */
  lemma RetriedIsInnerRetried<T>(h: R.RetryHandler, inner: nat -> Traced<T>)
    ensures var run := R.Attempts(h, Outcomes(inner), 0);
      Retried(h, inner).0 == run.result
      && Calls(Retried(h, inner).1) == Calls(Trace(inner, run.invocations))
  {
    RunIsInnerRetried(h, inner, false);
  }

  /** The same for either of the handler's loops: the attempt lambdas add log
      entries around the inner calls and change no outcome. */
  lemma RunIsInnerRetried<T>(h: R.RetryHandler, inner: nat -> Traced<T>, async: bool)
    ensures var run := R.Attempts(h, Outcomes(inner), 0, async);
      RunAttempts(h, EachAttempt(inner), async).0 == run.result
      && Calls(RunAttempts(h, EachAttempt(inner), async).1) == Calls(Trace(inner, run.invocations))
  {
    var attempt := EachAttempt(inner);
    assert forall a: nat :: attempt(a).0 == inner(a).0;
    R.AttemptsAgree(h, Outcomes(attempt), Outcomes(inner), 0, async);
    var run := R.Attempts(h, Outcomes(inner), 0, async);
    TraceCalls(attempt, inner, run.invocations);
  }

  /** With the token cancelled before every attempt, the inner handler is
      never called and nothing is logged; the cancellation goes through the
      retry handler like any failure, so a condition that accepts it makes the
      handler back off and try again. */
  lemma {:induction false} CancelledNeverReachesInner<T>(h: R.RetryHandler, ct: Token, inner: nat -> Traced<T>)
    requires forall a: nat :: ct(a)
    ensures RetriedAsync(h, ct, inner) == (R.Attempts(h, a => Fail(OperationCanceled), 0, true).result, [])
  {
    var attempt := EachAttemptAsync(ct, inner);
    R.AttemptsAgree(h, Outcomes(attempt), a => Fail(OperationCanceled), 0, true);
    var run := R.Attempts(h, Outcomes(attempt), 0, true);
    NothingTraced(attempt, run.invocations);
  }

  lemma {:induction false} NothingTraced<T>(attempt: nat -> Traced<T>, m: nat)
    requires forall a: nat :: attempt(a).1 == []
    ensures Trace(attempt, m) == []
  {
    if m > 0 {
      NothingTraced(attempt, m - 1);
    }
  }

  /** ScalarAsync and StringAsync behave alike for any two inner handlers that
      agree on calls made without a token: what an inner handler would do with
      the caller's token is never seen. */
  lemma ScalarAsyncDropsToken<T>(h: R.RetryHandler, ct: Token, inner1: (nat, Token) -> Traced<T>,
      inner2: (nat, Token) -> Traced<T>)
    requires forall a: nat :: inner1(a, NoToken()) == inner2(a, NoToken())
    ensures ScalarAsync(h, ct, inner1) == ScalarAsync(h, ct, inner2)
  {
    var attempt1 := EachAttemptAsync(ct, WithToken(inner1, NoToken()));
    var attempt2 := EachAttemptAsync(ct, WithToken(inner2, NoToken()));
    R.AttemptsAgree(h, Outcomes(attempt1), Outcomes(attempt2), 0, true);
    var run := R.Attempts(h, Outcomes(attempt1), 0, true);
    TraceAgree(attempt1, attempt2, run.invocations);
  }
}
