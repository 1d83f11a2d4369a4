// MicronCommandHandlerExceptionDecorator of Micron: every operation calls the
// inner handler inside Try with the decorator's logger and logs nothing of its
// own. The async operations use Try.ToAsync without a token, which behaves
// as Try.To; BatchAsync calls the inner BatchAsync without its token, and
// TransactionAsync hands its async closure to the synchronous Try.To.
module MicronCommandHandlerExceptionDecorator {
  import opened Common
  import MT = MicronTry

  /** Batch, Execute, Read, Scalar, String, Transaction and the async forms
      other than TransactionAsync: Try around the inner call, whose effect is
      `inner`. */
  function Call<T>(inner: Traced<T>): Traced<T>
  {
    MT.To(inner, Recording)
  }

  /** BatchAsync(commands, batchSize, ct): `inner(t)` is what the inner
      BatchAsync does given token t; it is given none. */
  function BatchAsync(ct: Token, inner: Token -> Traced<int>): (r: Traced<int>)
    ensures r == Call(inner(NoToken()))
  {
    MT.ToAsync(false, inner(NoToken()), Recording)
  }

  /** TransactionAsync as written: `await Try.To(exec, logger)` with an async exec. */
  function TransactionAsync(inner: Traced<Unit>): (r: Traced<Unit>)
    ensures r == inner
  {
    MT.ToOverAsync(inner, Recording)
  }

  /** TransactionAsync as the other async operations have it. */
  function TransactionAsyncWrapped(inner: Traced<Unit>): (r: Traced<Unit>)
    ensures r == Call(inner)
    ensures inner.0.Fail? ==> r.0 == Fail(Wrapped(inner.0.error))
    ensures |Filter(r.1, IsErrorLog)| == |Filter(inner.1, IsErrorLog)| + (if inner.0.Fail? then 1 else 0)
  {
    MT.ToAsync(false, inner, Recording)
  }

  /** A failing operation comes back wrapped once, after exactly one error
      entry; TransactionAsync instead passes the inner failure through
      unwrapped and unlogged, while its corrected form agrees with Transaction. */
  lemma FailureWrappedOnceExceptTransactionAsync(inner: Traced<Unit>)
    requires inner.0.Fail?
    ensures Call(inner).0 == Fail(Wrapped(inner.0.error))
    ensures |Filter(Call(inner).1, IsErrorLog)| == |Filter(inner.1, IsErrorLog)| + 1
    ensures TransactionAsync(inner) == inner
    ensures TransactionAsyncWrapped(inner) == Call(inner)
  {
  }

  /** What BatchAsync returns does not depend on the caller's token. */
  lemma BatchAsyncDropsToken(ct1: Token, ct2: Token, inner: Token -> Traced<int>)
    ensures BatchAsync(ct1, inner) == BatchAsync(ct2, inner)
    ensures BatchAsync(ct1, inner) == Call(inner(NoToken()))
  {
  }
}
