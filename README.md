# Micron, modelled in Dafny

Micron is a data-command layer over an ADO.NET-style database driver. It sits
between an application and the driver and does four things. It retries
transient failures with a validated backoff. It wraps a command handler in
decorators: configuration, retry, logging and exception translation. It runs
batches of commands in transaction windows of a fixed size, adding up the
affected rows. It maps CLR types and parameter data types to `DbType`. The
repository holds two generations of this design: the `Micron` library and the
`Micron.SqlClient` drafts (gateway, data command, session). It also holds a
small test client that loads IMDb's `title.basics.tsv` into a table.

This project models those pieces one module per source file:

- **Retry.** The backoff intervals, retry handlers and retry counts of both
  generations.
- **Try.** The Try helpers that log and wrap exceptions.
- **Handlers.** The command handlers and their decorators, sync and async.
- **Sessions and gateways.** The SqlClient gateways, data commands, sessions
  and their decorators.
- **Parameters and types.** The parameter description, the positional
  command factory and the type map.
- **Test client.** The TSV row, the IMDb null marker and constant, and the
  database row of the test client.

**How calls are modelled.**

- **Results and traces.** A call that can throw returns a `Result`. A call
  that also logs, sleeps, opens, commits or disposes returns the pair of its
  result and its trace of `Event`s, in the order the source performs them.
- **Retried operations.** An operation under retry is a function from the
  attempt number to such an outcome. A retry run reports its result, the
  invocations it made and the backoffs it waited.
- **Objects.** Objects whose fields the source updates in place are classes
  with `modifies` clauses: parameters, TSV rows, sessions, gateways and data
  commands.
- **Loops.** Loops such as the retry loop, the batch windows, the reader loop
  and the positional factory are methods with invariants. Each is proved
  against the function that specifies it.

**Properties proved.**

- **Retry bounds.** Retry handlers invoke an operation at most
  MaxRetries + 1 times. They back off only between failures a condition
  accepts. They rethrow the last failure unchanged, unless a backoff throws
  first: a delay below Timeout.Infinite, an attempt past MaxRetries or an
  unset interval. The backoff's exception then ends the run.
- **Backoff validation.** The intervals of src/Micron/Retry/ and
  src/Micron.SqlClient/Retry/ accept a calculation exactly when every attempt
  they will be asked for lies within their bounds. The root
  `Micron.SqlClient` interval checks the calculation at 0 .. MaxRetries-1
  instead, so the last attempt is never checked (see Findings).
- **Decorators.** The exception decorators wrap a failure exactly once. The
  logging decorators add log entries and nothing else. The retry decorators
  behave as the retry handler around the inner call.
- **Batches.** A batch splits its commands into consecutive windows. Each
  window is one transaction. The total reported for a window is its affected
  counts added up in unchecked C# `int` arithmetic: the sum modulo 2^32,
  read back as a signed 32-bit value.
- **Transactions.** SqlCommand and the SqlDataGateway transaction dispose
  their connection, transaction and command objects on every exit path.
  SqlDataCommand.Try disposes its command on every exit path, and TryAsync
  on every path past its token check. SqlDbCommandHandler.Transaction
  disposes its transaction on every exit path. The other `using` disposals are not recorded (see
  Left out). MicronCommandHandler.Transaction never disposes the commands it
  executed (see Findings).
- **Round trips.** Positional parameter names are distinct, and parameter
  values tell parameters apart. TSV lines and printed numbers read back as
  they were written.

## Model

| member | source | states |
|---|---|---|
| MicronTry.To | src/Micron/Try.cs:10-28 | a success is returned as it was; a failure comes back as a MicronException whose inner exception is the original (one level deeper, and unwrapping gives the original back), after exactly one error entry on a recording logger; the function's calls are left unchanged |
| MicronTry.ToAsync | src/Micron/Try.cs:30-50 | a token cancelled on entry throws OperationCanceledException before the try, with nothing invoked or logged; otherwise the awaited function is handled exactly as To handles it |
| MicronTry.ToOverAsync | src/Micron/DbCommandHandlerExceptionDecorator.cs:228-246 | the synchronous To handed an async lambda gives back the lambda's outcome and events unchanged: nothing is wrapped and nothing is logged |
| MicronTry.ToOverAsyncMissesFaults | src/Micron/DbCommandHandlerExceptionDecorator.cs:245 | To over an async lambda agrees with ToAsync exactly when the lambda succeeds; on every failure the two differ |
| MicronTry.Await | src/Micron/DbCommandHandlerExceptionDecorator.cs:245 | awaiting a started Task yields its outcome, or the failure of the call that should have produced it, adding no events |
| MicronCoreTry.To | src/Micron.Core/Try.cs:9-27 | behaves as the Micron revision of To, logging and wrapping in the same way |
| MicronCoreTry.ToAsync | src/Micron.Core/Try.cs:29-47 | behaves as the Micron ToAsync with a token that is never cancelled: the function is always invoked |
| MicronCoreTry.CancellationIsWrapped | src/Micron.Core/Try.cs:36-47 | a cancellation raised by the function comes back wrapped in a MicronException, where the Micron revision's pre-check lets a cancelled token through unwrapped |
| SqlClientTry.To | src/Micron.SqlClient/Try.cs:8-25 | wraps a failure as the Micron revision does but logs nothing: the trace is the function's own and unwrapping gives the original outcome |
| SqlClientTry.ToAsync | src/Micron.SqlClient/Try.cs:27-44 | the awaited function is handled exactly as To handles it |
| DbCommandHandlerFactory.NewFactory | src/Micron/DbCommandHandlerFactory.cs:12-21 | keeps the retry handler and a given configurer; a missing configurer becomes one that returns every command unchanged |
| DbCommandHandlerFactory.Execute | src/Micron/DbCommandHandlerFactory.cs:23-36 | the built handler (exception over logging over retry over pipeline over DbCommandHandler) returns what the retry decorator made of the configured attempts, a failure wrapped exactly once, with the same calls |
| DbCommandHandlerFactory.ConfiguresOncePerAttempt | src/Micron/DbCommandHandlerFactory.cs:27-29 | the configurer runs once per attempt the retry handler makes |
| DbCommandHandlerPipelineDecorator.Identity | src/Micron/DbCommandHandlerFactory.cs:20 | the default configurer returns every command unchanged |
| DbCommandHandlerPipelineDecorator.SelectAll | src/Micron/DbCommandHandlerPipelineDecorator.cs:61-63 | the copy succeeds exactly when every step succeeds, and then holds each step's result at its command's index; otherwise it fails with the error of the first step that failed, every step before it having succeeded |
| DbCommandHandlerPipelineDecorator.Single | src/Micron/DbCommandHandlerPipelineDecorator.cs:22-56 | the inner handler receives the configurer's result instead of the caller's command and its outcome is returned as is; a configurer that throws ends the call before the inner handler is reached |
| DbCommandHandlerPipelineDecorator.SingleConfiguresOnce | src/Micron/DbCommandHandlerPipelineDecorator.cs:22-56 | each single-command operation calls the configurer exactly once more than the inner handler does, and with the default configurer the inner handler gets the caller's own command |
| DbCommandHandlerPipelineDecorator.ConfiguredEach | src/Micron/DbCommandHandlerPipelineDecorator.cs:61-63 | configuring an array calls the configurer once per command, in array order |
| DbCommandHandlerPipelineDecorator.TransactionConfiguresAll | src/Micron/DbCommandHandlerPipelineDecorator.cs:58-76 | when every command configures, the inner transaction gets the configured array (same length, same order) and its outcome is returned |
| DbCommandHandlerRetryDecorator.Attempt | src/Micron/DbCommandHandlerRetryDecorator.cs:27-37 | an attempt has the inner call's outcome; it logs "Attempt n..." (n = earlier attempts + 1) before the inner call's events and "Attempt n successful!" after them only when the call returned; it adds no calls |
| DbCommandHandlerRetryDecorator.AttemptAsync | src/Micron/DbCommandHandlerRetryDecorator.cs:39-53 | a token cancelled when the attempt starts throws before anything is logged or called; otherwise the attempt is the synchronous one |
| DbCommandHandlerRetryDecorator.ExecuteAsync | src/Micron/DbCommandHandlerRetryDecorator.cs:39-53 | the outcome is what the asynchronous retry handler makes of attempts that each fail with OperationCanceledException when the token is cancelled at their start and otherwise have the inner call's outcome, the token passed on |
| DbCommandHandlerRetryDecorator.ScalarAsync | src/Micron/DbCommandHandlerRetryDecorator.cs:95-109 | as ExecuteAsync, except that the inner call is given no token |
| DbCommandHandlerRetryDecorator.RunIsInnerRetried | src/Micron/DbCommandHandlerRetryDecorator.cs:27-163 | in the synchronous and the asynchronous retry loop alike, the decorated result is the retry handler's over the inner outcomes, and the calls are the inner calls of the attempts made, in order |
| DbCommandHandlerRetryDecorator.RetriedIsInnerRetried | src/Micron/DbCommandHandlerRetryDecorator.cs:27-147 | the decorator returns what the retry handler makes of the inner calls' own outcomes, and the calls it makes are those of the inner calls of the attempts made, in attempt order: nothing but log entries is added |
| DbCommandHandlerRetryDecorator.CancelledNeverReachesInner | src/Micron/DbCommandHandlerRetryDecorator.cs:41-43 | with the token cancelled before every attempt the inner handler is never called and nothing is logged; the outcome is the retry handler's over attempts that all fail with a cancellation |
| DbCommandHandlerRetryDecorator.ScalarAsyncDropsToken | src/Micron/DbCommandHandlerRetryDecorator.cs:95-136 | ScalarAsync and StringAsync call the inner handler without the caller's token: inner handlers that agree on token-less calls give identical results |
| DbCommandHandlerLoggingDecorator.Around | src/Micron/DbCommandHandlerLoggingDecorator.cs:22-157 | every operation returns the inner outcome unchanged, writes its debug entry first, then the inner call's events, and its information entry last only when the inner call returned; it adds no calls |
| DbCommandHandlerLoggingDecorator.Execute | src/Micron/DbCommandHandlerLoggingDecorator.cs:22-48 | logs "Executing command" with the command text before, and "Executed command ... affecting ... rows" with the text captured before the call and the affected count after a return; the count is passed through |
| DbCommandHandlerLoggingDecorator.Read | src/Micron/DbCommandHandlerLoggingDecorator.cs:50-75 | both entries carry the command text and the command behaviour; the information entry only after a return |
| DbCommandHandlerLoggingDecorator.Scalar | src/Micron/DbCommandHandlerLoggingDecorator.cs:77-106 | both entries carry the command text; the value is passed through unchanged |
| DbCommandHandlerLoggingDecorator.String | src/Micron/DbCommandHandlerLoggingDecorator.cs:108-136 | both entries carry the command text; the string is passed through unchanged |
| DbCommandHandlerLoggingDecorator.Transaction | src/Micron/DbCommandHandlerLoggingDecorator.cs:138-157 | both entries carry the number of commands; the inner outcome is passed through |
| DbCommandHandlerExceptionDecorator.ConfigurePipeline | src/Micron/DbCommandHandlerExceptionDecorator.cs:41-55 | without a pipeline the command comes back untouched and nothing is logged; with one, the result is the pipeline's and the pipeline is the only call made |
| DbCommandHandlerExceptionDecorator.Single | src/Micron/DbCommandHandlerExceptionDecorator.cs:57-129 | unwrapping the result gives the exec closure's outcome, and every failure is a MicronException; without a pipeline, a success is the inner handler's value and a failure is the inner exception wrapped once, with the inner handler's calls unchanged |
| DbCommandHandlerExceptionDecorator.Execute | src/Micron/DbCommandHandlerExceptionDecorator.cs:112-129 | every failure is a MicronException; without a pipeline the affected count is the inner handler's, and its failure comes back wrapped once |
| DbCommandHandlerExceptionDecorator.Read | src/Micron/DbCommandHandlerExceptionDecorator.cs:57-72 | as Execute, for a read |
| DbCommandHandlerExceptionDecorator.Scalar | src/Micron/DbCommandHandlerExceptionDecorator.cs:74-91 | as Execute, for a scalar |
| DbCommandHandlerExceptionDecorator.String | src/Micron/DbCommandHandlerExceptionDecorator.cs:93-110 | as Execute, for a string |
| DbCommandHandlerExceptionDecorator.Transaction | src/Micron/DbCommandHandlerExceptionDecorator.cs:131-146 | unwrapping the result gives the outcome of configuring every command and running the inner transaction; every failure is a MicronException |
| DbCommandHandlerExceptionDecorator.TransactionAsync | src/Micron/DbCommandHandlerExceptionDecorator.cs:228-246 | as written: the result is the exec closure's own outcome and events, unwrapped and unlogged |
| DbCommandHandlerExceptionDecorator.TransactionAsyncWrapped | src/Micron/DbCommandHandlerExceptionDecorator.cs:148-226 | corrected, as the other async operations have it: unwrapping gives the exec outcome, a failure is wrapped once after one more error entry, and the calls are unchanged |
| DbCommandHandlerExceptionDecorator.TransactionAsyncLeaksInnerFailure | src/Micron/DbCommandHandlerExceptionDecorator.cs:245 | when the inner transaction fails, TransactionAsync as written returns the inner exception itself, where Transaction and the corrected TransactionAsync return it wrapped |
| DbCommandHandlerExceptionDecorator.PipelineConfiguresAll | src/Micron/DbCommandHandlerExceptionDecorator.cs:137 | when the pipeline accepts every command, the array is configured command by command, same length and order |
| DbCommandHandlerExceptionDecorator.PipelineFailureWrapped | src/Micron/DbCommandHandlerExceptionDecorator.cs:64 | an exception of the pipeline is wrapped like one of the inner handler, and the inner handler is not called |
| DbCommandHandlerDecorator.SingleWrapsOnce | src/Micron/DbCommandHandlerDecorator.cs:23-174 | Read, Scalar, String, Execute, Transaction and their Try.ToAsync forms return the inner value unchanged, or the inner failure wrapped exactly once in a MicronException; the inner handler's calls are all that is added beside log entries |
| DbCommandHandlerDecorator.Read | src/Micron/DbCommandHandlerDecorator.cs:23-36 | Read returns what the inner Read returns, or its failure wrapped once in a MicronException, and calls nothing but the inner Read |
| DbCommandHandlerDecorator.Scalar | src/Micron/DbCommandHandlerDecorator.cs:38-53 | the inner scalar unchanged, or its failure wrapped once; the inner call is the only call |
| DbCommandHandlerDecorator.String | src/Micron/DbCommandHandlerDecorator.cs:55-70 | the inner string unchanged, or its failure wrapped once; the inner call is the only call |
| DbCommandHandlerDecorator.Execute | src/Micron/DbCommandHandlerDecorator.cs:72-87 | the inner affected-row count unchanged, or its failure wrapped once; the inner call is the only call |
| DbCommandHandlerDecorator.Transaction | src/Micron/DbCommandHandlerDecorator.cs:89-102 | the inner transaction's outcome, its failure wrapped once; the configured commands' inner transaction is the only call |
| DbCommandHandlerDecorator.OneErrorEntryPerFailure | src/Micron/DbCommandHandlerDecorator.cs:35 | with a real logger a failure adds exactly one error entry and a return adds none |
| DbCommandHandlerDecorator.NullLoggerRecordsNothing | src/Micron/DbCommandHandlerDecorator.cs:20 | a missing logger becomes the null logger: the events are exactly those of the inner call |
| DbCommandHandlerDecorator.TransactionAsync | src/Micron/DbCommandHandlerDecorator.cs:176-192 | as written: the result is the exec closure's own outcome and events, unwrapped and with no error entry |
| DbCommandHandlerDecorator.TransactionAsyncWrapped | src/Micron/DbCommandHandlerDecorator.cs:104-174 | corrected, as the other async operations have it: it behaves exactly as Transaction |
| DbCommandHandlerDecorator.TransactionAsyncLeaksInnerFailure | src/Micron/DbCommandHandlerDecorator.cs:191 | a failed inner transaction reaches the caller of TransactionAsync as the inner exception itself, where Transaction reports it wrapped |
| MicronBackoffInterval.FirstOutOfBounds | src/Micron/Retry/BackoffInterval.cs:22-37 | the validation loop finds no attempt exactly when every attempt from the start to MaxRetries lies within the bounds; otherwise it names the first attempt that does not, every earlier one being within them |
| MicronBackoffInterval.ValidateAccepts | src/Micron/Retry/BackoffInterval.cs:20-40 | a calculation is accepted exactly when attempts 1..MaxRetries all give 20..10000 milliseconds, and the interval then keeps that calculation |
| MicronBackoffInterval.New | src/Micron/Retry/BackoffInterval.cs:20-40 | the constructor's loop succeeds exactly when every attempt 1..MaxRetries is within the bounds, and otherwise throws ArgumentOutOfRangeException("intervalCalculation") carrying an out-of-bounds interval |
| MicronBackoffInterval.FromMilliseconds | src/Micron/Retry/BackoffInterval.cs:18 | a constant interval is accepted exactly when it lies within 20..10000 milliseconds, and then gives that value for every attempt |
| MicronBackoffInterval.BackoffWithinBounds | src/Micron/Retry/BackoffInterval.cs:42-53 | a validated interval sleeps within the bounds for every attempt 1..MaxRetries and throws ArgumentOutOfRangeException("attempt") for every attempt beyond MaxRetries |
| MicronBackoffInterval.Backoff | src/Micron/Retry/BackoffInterval.cs:42-53 | an attempt past MaxRetries throws ArgumentOutOfRangeException("attempt") and an unset interval a NullReferenceException; otherwise Thread.Sleep succeeds exactly when the calculated delay is at least -1, sleeping that delay, and refuses a smaller one with ArgumentOutOfRangeException("millisecondsTimeout") |
| MicronBackoffInterval.BackoffAsync | src/Micron/Retry/BackoffInterval.cs:59-69 | succeeds exactly when the token is live and Backoff would succeed, then waiting the same delay; a cancelled token turns every delay Backoff would accept into OperationCanceledException |
| MicronBackoffInterval.BackoffAsyncAgrees | src/Micron/Retry/BackoffInterval.cs:42-69 | with a live token BackoffAsync throws for exactly the attempts Backoff throws for and otherwise waits the same delay; a delay below -1 is refused by both, Task.Delay naming "millisecondsDelay" and Thread.Sleep "millisecondsTimeout"; with a cancelled token that argument check still comes first, and every delay it lets through fails with OperationCanceledException |
| MicronBackoffInterval.ValidatedBackoffAsyncAgrees | src/Micron/Retry/BackoffInterval.cs:42-69 | for a validated interval and any attempt from 1 on, BackoffAsync with a live token gives exactly what Backoff gives |
| MicronBackoffInterval.BackoffHasNoLowerBound | src/Micron/Retry/BackoffInterval.cs:44-52 | only the upper bound of the attempt is checked: an attempt below 1 reaches the calculation unvalidated, and its value is slept as it is, or refused by Thread.Sleep with ArgumentOutOfRangeException("millisecondsTimeout") when it is below -1 |
| MicronRetryHandler.WithConditions | src/Micron/Retry/RetryHandler.cs:13-18 | the conditions-only constructor uses MaxRetries retries, the minimum backoff for every attempt, and no conditions when none are given |
| MicronRetryHandler.Execute | src/Micron/Retry/RetryHandler.cs:35-57 | the do/while loop with its post-incremented counter returns the outcome, invocation count and backoff attempts of the recursive specification Attempts |
| MicronRetryHandler.ExecuteAsync | src/Micron/Retry/RetryHandler.cs:66-88 | the asynchronous loop, awaiting BackoffAsync with the default token, returns the run of Attempts in its asynchronous form |
| MicronRetryHandler.AsyncRunsAgree | src/Micron/Retry/RetryHandler.cs:30-88 | for every interval the BackoffInterval constructors can build, ExecuteAsync has exactly the run of Execute |
| MicronRetryHandler.AttemptsShape | src/Micron/Retry/RetryHandler.cs:35-57 | every run backs off with consecutive attempt numbers starting after the failures so far, and ends either with the outcome of its last invocation or with the exception of the backoff that followed it |
| MicronRetryHandler.AttemptsBounded | src/Micron/Retry/RetryHandler.cs:46 | the operation is invoked at most RetryCount + 2 times (the guard reads the counter before incrementing it) and never more than MaxRetries + 1 times |
| MicronRetryHandler.UnmatchedRethrown | src/Micron/Retry/RetryHandler.cs:50-53 | a failure no condition matches is rethrown unchanged after one invocation and no backoff |
| MicronRetryHandler.AttemptsAgree | src/Micron/Retry/RetryHandler.cs:35-57 | the run depends only on the outcomes of the invocations |
| MicronRetryHandler.SucceedsAfterRetries | src/Micron/Retry/RetryHandler.cs:35-57 | k matching failures followed by a success return that success after k + 1 invocations and backoffs 1..k, when the retry count and MaxRetries allow k retries |
| MicronRetryHandler.PersistentFailure | src/Micron/Retry/RetryHandler.cs:46-49 | a persistent matching failure is invoked RetryCount + 2 times with backoffs 1..RetryCount + 1 and then rethrown, while RetryCount + 1 stays within MaxRetries |
| MicronRetryHandler.PersistentFailureAtMaxRetries | src/Micron/Retry/BackoffInterval.cs:44-48 | with RetryCount = MaxRetries a persistent matching failure reaches Backoff(MaxRetries + 1), whose ArgumentOutOfRangeException replaces the operation's own exception after MaxRetries + 1 invocations |
| MicronRetryHandler.RetryConfigurer.constructor | src/Micron/Retry/RetryHandler.cs:108-109 | a new configuration has no condition, a retry count of 0 and an unset backoff |
| MicronRetryHandler.RetryConfigurer.OnException | src/Micron/Retry/RetryHandler.cs:111-131 | without a condition every exception matches; with one, an exception matches when it is of the type and the condition holds; nothing else changes |
| MicronRetryHandler.RetryConfigurer.Retry | src/Micron/Retry/RetryHandler.cs:133-140 | stores the times and the backoff and builds a handler with them and one condition, which rejects everything when no condition was configured |
| MicronRetryHandler.RetryConfigurer.Interval | src/Micron/Retry/RetryHandler.cs:151-152 | a valid calculation becomes the backoff; an invalid one throws the validation's exception and leaves the configuration as it was |
| MicronRetryHandler.RetryConfigurer.RetryConfigured | src/Micron/Retry/RetryHandler.cs:142-149 | the times are stored, exception or not; when every Interval call of the callback is valid, the last calculation is the backoff of the built handler, whose one condition is the stored one or, with none stored, matches nothing; otherwise the first invalid call escapes from Retry with its exception, every earlier call having been valid and the backoff left at the last of them, or as it was |
| MicronRetryHandler.RetryConfigurer.IntervalEach | src/Micron/Retry/RetryHandler.cs:145-152 | the configureBackoff callback's Interval calls in turn: all valid leaves the last calculation as the backoff; otherwise the first invalid one throws, the backoff left at the last valid one before it, or as it was; times and condition untouched |
| MicronRetryHandler.RetryConfigurer.Build | src/Micron/Retry/RetryHandler.cs:137-139 | the handler carries the configured retry count, backoff and single condition, or a condition that matches nothing |
| MicronRetryHandler.Catch | src/Micron/Retry/RetryHandler.cs:97-99 | a fresh configurer whose only set field is the typed condition |
| SqlRetryTimes.New | src/Micron.SqlClient/Retry/RetryTimes.cs:9-18 | a retry count is accepted exactly when it lies in 1..5, and is kept; otherwise ArgumentOutOfRangeException("retryCount") |
| SqlRetryTimes.EqualsIsValueEquality | src/Micron.SqlClient/Retry/RetryTimes.cs:22-27 | two values are Equal exactly when their counts agree, and then hash alike |
| SqlRetryTimes.Equals | src/Micron.SqlClient/Retry/RetryTimes.cs:22-24 | two values are equal exactly when they are the same value |
| SqlRetryTimes.RangeEnds | src/Micron.Tests/SqlClient/Retry/RetryHandlerTests.cs:17-24 | 0 and 6 are rejected and 1 and 5 are accepted |
| SqlRootRetryTimes.New | src/Micron.SqlClient/RetryTimes.cs:18-27 | the earlier revision accepts exactly 1..5 in the same way |
| SqlBackoffInterval.FirstOutOfBounds | src/Micron.SqlClient/Retry/BackoffInterval.cs:22-37 | the validation loop finds no attempt exactly when every attempt up to MaxRetries lies in 50..30000; otherwise it names the first that does not |
| SqlBackoffInterval.Validate | src/Micron.SqlClient/Retry/BackoffInterval.cs:20-40 | a calculation is accepted exactly when attempts 1..MaxRetries all lie in 50..30000 milliseconds, and is then kept |
| SqlBackoffInterval.New | src/Micron.SqlClient/Retry/BackoffInterval.cs:20-40 | the constructor's loop produces what Validate does, and a rejection names an attempt whose interval is out of bounds |
| SqlBackoffInterval.FromMilliseconds | src/Micron.SqlClient/Retry/BackoffInterval.cs:18 | a constant is accepted exactly when it lies within the bounds, and then holds for every attempt |
| SqlBackoffInterval.BackoffWithinBounds | src/Micron.SqlClient/Retry/BackoffInterval.cs:46-56 | a validated interval delays within the bounds for every attempt 1..MaxRetries and throws ArgumentOutOfRangeException("retryCount") beyond MaxRetries |
| SqlBackoffInterval.Backoff | src/Micron.SqlClient/Retry/BackoffInterval.cs:46-56 | a retry count past MaxRetries throws ArgumentOutOfRangeException("retryCount") and an unset interval a NullReferenceException; otherwise Task.Delay succeeds exactly when the calculated delay is at least -1, waiting that delay, and refuses a smaller one with ArgumentOutOfRangeException("millisecondsDelay") |
| SqlBackoffInterval.EqualityOfDelegates | src/Micron.SqlClient/Retry/BackoffInterval.cs:58-63 | two intervals are equal exactly when their delegates are; equality is reflexive, symmetric and transitive, and equal intervals hash alike |
| SqlBackoffInterval.Equals | src/Micron.SqlClient/Retry/BackoffInterval.cs:58-60 | two intervals are equal exactly when they hold the same delegate, or none |
| SqlBackoffInterval.HashCode | src/Micron.SqlClient/Retry/BackoffInterval.cs:62-63 | the hash code is that of the delegate, null for an unset interval |
| SqlRootBackoffInterval.FirstOutOfBounds | src/Micron.SqlClient/BackoffInterval.cs:28-43 | the loop finds no argument exactly when every argument in the range lies in 250..30000; otherwise it names the first that does not |
| SqlRootBackoffInterval.Validate | src/Micron.SqlClient/BackoffInterval.cs:26-46 | as written: a calculation is accepted exactly when its values at 0..MaxRetries-1 are within the bounds |
| SqlRootBackoffInterval.New | src/Micron.SqlClient/BackoffInterval.cs:26-46 | the constructor's loop produces what Validate does, and a rejection names an argument whose interval is out of bounds |
| SqlRootBackoffInterval.FromMilliseconds | src/Micron.SqlClient/BackoffInterval.cs:24 | a constant is accepted exactly when it lies within 250..30000, and then holds for every attempt |
| SqlRootBackoffInterval.Backoff | src/Micron.SqlClient/BackoffInterval.cs:52-62 | a retry count past MaxRetries throws ArgumentOutOfRangeException("retryCount") and an unset interval a NullReferenceException; otherwise Task.Delay succeeds exactly when the calculated delay is at least -1, and refuses a smaller one with ArgumentOutOfRangeException("millisecondsDelay") |
| SqlRootBackoffInterval.UnvalidatedLastAttempt | src/Micron.SqlClient/BackoffInterval.cs:30 | a calculation that returns 0 at attempt MaxRetries passes validation, and Backoff(MaxRetries) then delays 0 milliseconds, below the minimum |
| SqlRootBackoffInterval.ValidateAttempts | src/Micron.SqlClient/BackoffInterval.cs:52-62 | corrected: a calculation is accepted exactly when its values at the attempts 1..MaxRetries that Backoff receives are within the bounds |
| SqlRootBackoffInterval.ValidatedBackoffWithinBounds | src/Micron.SqlClient/BackoffInterval.cs:52-62 | with the corrected validation Backoff succeeds exactly for attempts up to MaxRetries, and every delay it produces is within the bounds |
| SqlRetryHandler.WithConditions | src/Micron.SqlClient/Retry/RetryHandler.cs:13-18 | the conditions-only constructor uses MaxRetries retries and the minimum backoff for every attempt |
| SqlRetryHandler.Execute | src/Micron.SqlClient/Retry/RetryHandler.cs:28-51 | the do/while loop with its post-incremented counter and `break` on success returns the run of the recursive specification Attempts |
| SqlRetryHandler.SucceedsFirst | src/Micron.SqlClient/Retry/RetryHandler.cs:35-36 | a successful first call ends the loop after one invocation with its value and no backoff |
| SqlRetryHandler.UnmatchedRethrown | src/Micron.SqlClient/Retry/RetryHandler.cs:44-47 | an exception no condition matches is rethrown after one invocation and no backoff |
| SqlRetryHandler.AttemptsShape | src/Micron.SqlClient/Retry/RetryHandler.cs:28-51 | backoff attempt numbers are consecutive; the run ends with its last invocation's outcome or with the failure of the backoff after it |
| SqlRetryHandler.SucceedsAfterRetries | src/Micron.SqlClient/Retry/RetryHandler.cs:28-51 | k matching failures followed by a success return that success after k + 1 invocations and backoffs 1..k |
| SqlRetryHandler.FifthCallSucceeds | src/Micron.Tests/SqlClient/Retry/RetryHandlerTests.cs:54-76 | with RetryTimes 5 and a match-all condition, an operation that fails until its fifth call is invoked exactly five times and returns that call's value |
| SqlRetryHandler.PersistentFailure | src/Micron.SqlClient/Retry/RetryHandler.cs:40-43 | a persistent matching failure is invoked RetryCount + 2 times and rethrown, while RetryCount + 1 stays within MaxRetries |
| SqlRootRetryHandler.Execute | src/Micron.SqlClient/RetryHandler.cs:30-53 | the loop with its pre-incremented counter returns the run of its recursive specification Attempts, in which a backoff that throws (Task.Delay refusing a delay below -1 included) ends the run with that exception |
| SqlRootRetryHandler.AttemptsShape | src/Micron.SqlClient/RetryHandler.cs:30-53 | with a retry count within MaxRetries and a set interval, backoffs are 1, 2, ... up to at most RetryCount; the run ends with the last invocation's outcome, or, after a retried failure at attempt n, with Task.Delay's ArgumentOutOfRangeException when the delay for n is below -1, n backoffs having been started |
| SqlRootRetryHandler.FirstRefused | src/Micron.SqlClient/BackoffInterval.cs:52-62 | the first attempt in a range whose delay Task.Delay refuses, every earlier one accepted; none exactly when all are accepted |
| SqlRootRetryHandler.UnmatchedRethrown | src/Micron.SqlClient/RetryHandler.cs:46-49 | an exception no condition matches is rethrown after one invocation and no backoff |
| SqlRootRetryHandler.PersistentStep | src/Micron.SqlClient/RetryHandler.cs:36-50 | a retried failure whose delay is accepted is followed by the persistent run from the next attempt |
| SqlRootRetryHandler.PersistentFailure | src/Micron.SqlClient/RetryHandler.cs:36-50 | a persistent matching failure is invoked RetryCount + 1 times with backoffs 1..RetryCount and rethrown, unless the delay of one of those attempts is below -1: the run then ends at the first such attempt a, after a invocations and backoffs 1..a, with Task.Delay's ArgumentOutOfRangeException |
| SqlRootRetryHandler.RefusedLastDelay | src/Micron.SqlClient/BackoffInterval.cs:30 | a calculation that passes the root validation but asks for -5 ms at attempt MaxRetries makes a persistent matching failure end after MaxRetries invocations with ArgumentOutOfRangeException("millisecondsDelay"), not with its own exception |
| SqlExceptionRetryConfiguration.ExceptionRetryConfiguration.constructor | src/Micron.SqlClient/Retry/ExceptionRetryConfiguration.cs:78-85 | a new configuration has no condition, a retry count of 0 and an unset backoff |
| SqlExceptionRetryConfiguration.ExceptionRetryConfigurer.constructor | src/Micron.SqlClient/Retry/ExceptionRetryConfiguration.cs:34-35 | the configurer shares the configuration it is given |
| SqlExceptionRetryConfiguration.ExceptionRetryConfigurer.Matching | src/Micron.SqlClient/Retry/ExceptionRetryConfiguration.cs:37-41 | stores the condition unchanged, replacing any earlier one, leaves the other fields alone and returns the configurer itself |
| SqlExceptionRetryConfiguration.ExceptionRetryConfigurer.MatchingOf | src/Micron.SqlClient/Retry/ExceptionRetryConfiguration.cs:43-55 | the stored condition holds exactly for exceptions of the type that satisfy the given condition; the other fields are unchanged |
| SqlExceptionRetryConfiguration.ExceptionRetryConfigurer.Retry | src/Micron.SqlClient/Retry/ExceptionRetryConfiguration.cs:57-62 | stores the times and the backoff, keeps the condition, and returns the shared configuration |
| SqlExceptionRetryConfiguration.ExceptionRetryConfigurer.Interval | src/Micron.SqlClient/Retry/ExceptionRetryConfiguration.cs:71-75 | a valid calculation becomes the backoff and the configuration is returned; an invalid one throws the validation's exception and changes nothing |
| SqlExceptionRetryConfiguration.ExceptionRetryConfigurer.RetryConfigured | src/Micron.SqlClient/Retry/ExceptionRetryConfiguration.cs:64-69 | the times are stored, exception or not; when every Interval call of the callback is valid, the last calculation is the backoff and the configuration is returned; otherwise the first invalid call escapes with its exception, every earlier call having been valid and the backoff left at the last of them, or as it was |
| SqlExceptionRetryConfiguration.ExceptionRetryConfigurer.IntervalEach | src/Micron.SqlClient/Retry/ExceptionRetryConfiguration.cs:67-75 | the configureBackoff callback's Interval calls in turn: all valid leaves the last calculation as the interval; otherwise the first invalid one throws, the interval left at the last valid one before it, or as it was; times and condition untouched |
| SqlExceptionRetryConfiguration.OnException | src/Micron.SqlClient/Retry/ExceptionRetryConfiguration.cs:12-25 | each call starts from a fresh, unconfigured configuration, whatever the type argument |
| MicronCommandHandler.WindowsFlatten | src/Micron/MicronCommandHandler.cs:165-188 | the windows Batch hands on, concatenated, give back the command stream in input order |
| MicronCommandHandler.WindowsShape | src/Micron/MicronCommandHandler.cs:169-188 | no window is empty; for batchSize >= 1 every window but the last holds exactly batchSize commands and the last between 1 and batchSize; for batchSize < 1 the whole input is one window |
| MicronCommandHandler.WindowsCount | src/Micron/MicronCommandHandler.cs:171-188 | for batchSize >= 1 there are ceil(N / batchSize) windows, none for an empty input |
| MicronCommandHandler.WindowsPosition | src/Micron/MicronCommandHandler.cs:165-179 | the command at position i is in window i / batchSize at offset i % batchSize |
| MicronCommandHandler.WindowsCons | src/Micron/MicronCommandHandler.cs:171-179 | a full first window is cut off as it stands and the rest is windowed on its own |
| MicronCommandHandler.WindowsAppendFull | src/Micron/MicronCommandHandler.cs:171-179 | windows of exactly batchSize in front of more commands are the first windows of the whole stream |
| MicronCommandHandler.HandedArePlanned | src/Micron/MicronCommandHandler.cs:171-179 | the full windows handed on so far are a prefix of the planned windows |
| MicronCommandHandler.PlanEndsWith | src/Micron/MicronCommandHandler.cs:182-188 | full windows followed by a short remainder plan exactly those windows and then the remainder, if there is one |
| MicronCommandHandler.RanIsDeterministic | src/Micron/MicronCommandHandler.cs:161-188 | the outcome of a batch run (windows handed, callbacks, result) is fixed by the inner handler's answers |
| MicronCommandHandler.TakeNext | src/Micron/MicronCommandHandler.cs:165-169 | adding the next command to the open window keeps the handed windows and the window, concatenated, equal to the commands read so far |
| MicronCommandHandler.FailedWindowRan | src/Micron/MicronCommandHandler.cs:171-173 | when the Transaction of a full window throws, the run so far is a prefix of the plan and ends with that exception |
| MicronCommandHandler.Batch | src/Micron/MicronCommandHandler.cs:155-191 | the windows are handed to the inner Transaction in input order as planned; callback j reports index j and the total of window j's affected counts in unchecked int arithmetic (WrappedSum, the sum modulo 2^32 in the signed range); the first exception ends the batch and propagates; on success every window was handed on and reported |
| Common.WrappedSumIsSumModulo | src/Micron/MicronCommandHandler.cs:173 | a window total added up with `batchAffected += x` in unchecked int arithmetic is the true sum reduced modulo 2^32 into the signed 32-bit range, and equals the true sum whenever that fits |
| Common.WrappedSumOverflows | src/Micron/MicronCommandHandler.cs:173 | counts of int.MaxValue and 1 are reported as int.MinValue |
| MicronCommandHandler.SendRemainder | src/Micron/MicronCommandHandler.cs:182-188 | the leftover commands, if any, go on as one last window reported with the next index; with none, the run ends as planned |
| MicronCommandHandler.UntilCancelled | src/Micron/MicronCommandHandler.cs:251-259 | the sets yielded are a prefix of the groups, none yielded at a cancelled point, and the first group not yielded is one where cancellation was observed |
| MicronCommandHandler.InSetsOf | src/Micron/MicronCommandHandler.cs:243-260 | fails with a division by zero exactly when the set size is 0 and the source is non-empty; otherwise yields groups |
| MicronCommandHandler.InSetsOfGrouping | src/Micron/MicronCommandHandler.cs:247-249 | without cancellation, element i is in the set numbered by the magnitude of i / setSize (C# division), at offset i mod setSize |
| MicronCommandHandler.KeyMagnitude | src/Micron/MicronCommandHandler.cs:248 | the group key i / setSize, truncated toward zero, has the magnitude of i / abs(setSize) |
| MicronCommandHandler.NeverCancelled | src/Micron/MicronCommandHandler.cs:251-259 | a token never cancelled lets every set through |
| MicronCommandHandler.InSetsOfStopsOnCancellation | src/Micron/MicronCommandHandler.cs:253-256 | once cancellation is observed no later set is yielded: the result is the longest run of planned sets before the first cancelled point |
| MicronCommandHandler.BatchAndBatchAsyncWindows | src/Micron/MicronCommandHandler.cs:171-201 | for batchSize >= 1 BatchAsync's sets are Batch's windows; for a negative batchSize Batch sends one window while InSetsOf cuts several |
| MicronCommandHandler.BatchAsync | src/Micron/MicronCommandHandler.cs:193-223 | a zero batch size over a non-empty stream fails before any Transaction; otherwise the sets of InSetsOf are run as Batch runs its windows, with the same callbacks and failure |
| MicronCommandHandler.DisposedIdsAppend | src/Micron/MicronCommandHandler.cs:123-126 | the disposals of two traces in a row are those of the first, then those of the second |
| MicronCommandHandler.EnumerateCommands | src/Micron/MicronCommandHandler.cs:114-121 | one enumeration of the lazy Select creates one new driver command per caller command, in order, and disposes none |
| MicronCommandHandler.DisposeEnumerated | src/Micron/MicronCommandHandler.cs:123-126 | the disposal loop enumerates the Select again: it creates fresh commands and disposes exactly those |
| MicronCommandHandler.Transaction | src/Micron/MicronCommandHandler.cs:109-129 | the inner Transaction receives one fresh command per caller command; on success the disposed commands are a second fresh set and the connection is closed; a failure propagates with nothing disposed |
| MicronCommandHandler.ExecutedCommandsNeverDisposed | src/Micron/MicronCommandHandler.cs:121-126 | no command handed to the inner Transaction is ever disposed |
| MicronCommandHandler.TransactionDisposingExecuted | src/Micron/MicronCommandHandler.cs:109-129 | corrected: on success exactly the commands handed to the inner Transaction are disposed, then the connection is closed |
| MicronCommandHandler.DisposeArray | src/Micron/MicronCommandHandler.cs:123-126 | disposing over the materialised array disposes exactly its commands, in order |
| MicronCommandHandlerExceptionDecorator.FailureWrappedOnceExceptTransactionAsync | src/Micron/MicronCommandHandlerExceptionDecorator.cs:22-153 | an operation whose inner call fails comes back wrapped once in a MicronException after exactly one more error log; TransactionAsync as written passes the inner failure through unlogged and unwrapped, while the corrected form behaves as every other operation |
| MicronCommandHandlerExceptionDecorator.BatchAsyncDropsToken | src/Micron/MicronCommandHandlerExceptionDecorator.cs:33-42 | the result of BatchAsync does not depend on the caller's token: the inner BatchAsync is called without one |
| MicronCommandHandlerExceptionDecorator.BatchAsync | src/Micron/MicronCommandHandlerExceptionDecorator.cs:33-42 | whatever the caller's token, the result is Try.To of the inner BatchAsync called without a token |
| MicronCommandHandlerExceptionDecorator.TransactionAsync | src/Micron/MicronCommandHandlerExceptionDecorator.cs:146-153 | as written: the inner transaction's outcome and events come back untouched |
| MicronCommandHandlerExceptionDecorator.TransactionAsyncWrapped | src/Micron/MicronCommandHandlerExceptionDecorator.cs:22-153 | corrected: Try.To of the inner transaction, a failure coming back wrapped once after exactly one more error entry |
| MicronCommandHandlerLoggingDecorator.Batch | src/Micron/MicronCommandHandlerLoggingDecorator.cs:22-55 | the outcome is the inner Batch's, unchanged, and the first entry is the debug "Executing batch." |
| MicronCommandHandlerLoggingDecorator.WrapperAddsOnlyLogs | src/Micron/MicronCommandHandlerLoggingDecorator.cs:28-34 | with the decorator's callback in place the caller's callback sees the same (index, affected) calls, in the same order, as if it had been handed to the inner Batch directly |
| MicronCommandHandlerLoggingDecorator.PlayCons | src/Micron/MicronCommandHandlerLoggingDecorator.cs:28-36 | the events of a run of inner steps are those of its first step followed by those of the rest |
| MicronCommandHandlerLoggingDecorator.StepEntries | src/Micron/MicronCommandHandlerLoggingDecorator.cs:28-34 | a window report yields exactly one information entry with its index and count; an inner event yields none |
| MicronCommandHandlerLoggingDecorator.OneEntryPerWindow | src/Micron/MicronCommandHandlerLoggingDecorator.cs:22-55 | one information entry per window the inner handler reports, with its index and count, in order, whether or not the caller passed a callback |
| MicronCommandHandlerRetryDecorator.BatchAsyncIgnoresCancellation | src/Micron/MicronCommandHandlerRetryDecorator.cs:26-76 | each attempt of Batch/BatchAsync reruns the whole inner batch, and with the token cancelled before every attempt BatchAsync still reaches the inner handler on every attempt the retry handler makes, while ExecuteAsync reaches it on none |
| MicronCommandHandlerRetryDecorator.Batch | src/Micron/MicronCommandHandlerRetryDecorator.cs:26-35 | the result is the synchronous retry handler's over the inner batches' outcomes, and the calls are those of one inner batch per attempt made, in order |
| MicronCommandHandlerRetryDecorator.BatchAsync | src/Micron/MicronCommandHandlerRetryDecorator.cs:37-48 | as Batch, over the asynchronous retry handler, whatever the token |
| MicronDbCommandHandler.Scalar | src/Micron/DbCommandHandler.cs:27-32 | succeeds exactly when the driver answers DBNull, which becomes default(T), or a value of type T, which is returned as read; null (no row) throws NullReferenceException from the unboxing cast, and a value of another type InvalidCastException |
| MicronDbCommandHandler.String | src/Micron/DbCommandHandler.cs:34-39 | DBNull becomes the empty string, null (no row) the null string, and a string is returned as read; only a value of another type throws, with InvalidCastException |
| MicronDbCommandHandler.Affected | src/Micron/DbCommandHandler.cs:106-112 | the results dictionary holds one affected count per command, keyed by its index, in index order |
| MicronDbCommandHandler.Executed | src/Micron/DbCommandHandler.cs:106-112 | the loop executes at most all the commands |
| MicronDbCommandHandler.ExecuteCommands | src/Micron/DbCommandHandler.cs:106-112 | commands are executed in index order until the first one that throws; the loop throws exactly when some command fails, and otherwise records every affected count |
| MicronDbCommandHandler.ReportAffected | src/Micron/DbCommandHandler.cs:114-120 | the callback is invoked on each (index, affected) pair in order until it throws, as the reporting specification says |
| MicronDbCommandHandler.Batch | src/Micron/DbCommandHandler.cs:80-141 | the outcome and the driver calls, in order, are those of the batch specification: guards, optional transaction, executions, callbacks, commit, rollback on failure, disposal |
| MicronDbCommandHandler.BatchAsync | src/Micron/DbCommandHandler.cs:143-208 | a cancelled token throws before anything else; otherwise BatchAsync behaves as Batch |
| MicronDbCommandHandler.BatchOutcome | src/Micron/DbCommandHandler.cs:83-133 | an empty array does nothing; commands on different connections are refused with a RootCauseException before any call; past the guards Batch returns normally unless the rollback itself throws |
| MicronDbCommandHandler.ReportedCalls | src/Micron/DbCommandHandler.cs:114-120 | the callbacks report (i, affected[i]) for a prefix of the counts; none without a callback; reporting throws exactly when the callback fails on some count, and otherwise every count is reported |
| MicronDbCommandHandler.AfterExecsCalls | src/Micron/DbCommandHandler.cs:114-125 | after the executions each call is a callback reporting one command or, in a transaction, a final Commit made after everything succeeded |
| MicronDbCommandHandler.TryBlockCalls | src/Micron/DbCommandHandler.cs:99-126 | within the try block command i is executed at position i, a callback comes only after all commands succeeded and reports one of them, and Commit comes last after everything succeeded |
| MicronDbCommandHandler.TryBlockShape | src/Micron/DbCommandHandler.cs:99-126 | the try block's calls follow that shape position by position |
| MicronDbCommandHandler.FinishEventAt | src/Micron/DbCommandHandler.cs:101-140 | a Batch past its guards makes Begin first in a transaction, then the try block's calls, then only Rollback and the disposal |
| MicronDbCommandHandler.PastGuards | src/Micron/DbCommandHandler.cs:83-104 | a Batch that made calls beyond a lone Begin passed both guards and began its transaction, and its calls are those of the try block and its ending |
| MicronDbCommandHandler.FinishCallback | src/Micron/DbCommandHandler.cs:114-120 | a callback in a finished batch reports one command and comes after all executions |
| MicronDbCommandHandler.FinishExecsBefore | src/Micron/DbCommandHandler.cs:106-120 | every execution comes before any later event of the batch |
| MicronDbCommandHandler.FinishCommit | src/Micron/DbCommandHandler.cs:122-125 | a Commit in a finished batch comes in a transaction after every command and callback succeeded |
| MicronDbCommandHandler.CallbackReportsCommand | src/Micron/DbCommandHandler.cs:114-120 | every callback made by Batch reports the index and affected count of one successfully executed command, and is made only when a callback was given |
| MicronDbCommandHandler.CallbacksAfterExecution | src/Micron/DbCommandHandler.cs:106-120 | callbacks are made only after every command executed successfully, and each execution precedes every callback |
| MicronDbCommandHandler.CommitOnlyAfterSuccess | src/Micron/DbCommandHandler.cs:122-125 | Commit is attempted only in a transaction, after every command and every callback succeeded |
| MicronDbCommandHandler.NoTransactionNoControl | src/Micron/DbCommandHandler.cs:97-140 | without a transaction only command executions and callbacks are made: nothing is begun, committed, rolled back or disposed |
| MicronDbCommandHandler.FinishRollback | src/Micron/DbCommandHandler.cs:127-140 | in a transaction Rollback is made exactly when the try block threw, the batch ends with the disposal, and a try block that did not throw committed successfully |
| MicronDbCommandHandler.TransactionDisposed | src/Micron/DbCommandHandler.cs:127-140 | a begun transaction is disposed on every exit path, and rolled back exactly when it was not committed successfully |
| SqlCommand.AttemptEvents | src/Micron.SqlClient/IDataGateway.cs:41-95 | every attempt opens first and ends by disposing the connection and then the command; Close is made exactly when the connection opened and the driver call (ExecuteReader with its row loop, ExecuteScalar or ExecuteNonQuery) returned, whatever the cast after it does |
| SqlCommand.Command.constructor | src/Micron.SqlClient/IDataGateway.cs:35-39 | keeps the retry handler and the command, not yet disposed |
| SqlCommand.Command.Attempt | src/Micron.SqlClient/IDataGateway.cs:56-69 | one attempt opens, makes the driver call, closes, and only then converts the answer; its `using` declarations dispose the connection and the command whatever happens |
| SqlCommand.Command.Try | src/Micron.SqlClient/IDataGateway.cs:41-95 | the outcome and calls are the retry handler's loop around the attempts, and the command ends disposed |
| SqlCommand.Command.Read | src/Micron.SqlClient/IDataGateway.cs:41-54 | the reader's rows go to the callback in order within retried attempts |
| SqlCommand.Command.Scalar | src/Micron.SqlClient/IDataGateway.cs:56-69 | the retried scalar: ExecuteScalar, Close, then DBNull read as default(T) and the rest cast, so null and a value of another type throw after the connection was closed |
| SqlCommand.Command.String | src/Micron.SqlClient/IDataGateway.cs:71-84 | the retried scalar: ExecuteScalar, Close, then DBNull read as "", null as the null string, and a value of another type thrown after the connection was closed |
| SqlCommand.Command.Execute | src/Micron.SqlClient/IDataGateway.cs:86-95 | the retried affected-row count |
| SqlCommand.Command.ReadAsync | src/Micron.SqlClient/IDataGateway.cs:102-106 | always throws NotImplementedException |
| SqlCommand.Command.ScalarAsync | src/Micron.SqlClient/IDataGateway.cs:108-111 | always throws NotImplementedException |
| SqlCommand.Command.StringAsync | src/Micron.SqlClient/IDataGateway.cs:113-116 | always throws NotImplementedException |
| SqlCommand.Command.ExecuteAsync | src/Micron.SqlClient/IDataGateway.cs:97-100 | always throws NotImplementedException |
| SqlCommand.TraceReopensDisposed | src/Micron.SqlClient/IDataGateway.cs:41-95 | over several attempts every Open after the first comes after the command was disposed |
| SqlCommand.RetryReusesDisposedCommand | src/Micron.SqlClient/IDataGateway.cs:41-95 | whatever the outcome, the trace starts with Open and ends with the command disposed, and every retry reopens a command already disposed |
| SqlCommand.CommandSucceedsFirst | src/Micron.SqlClient/IDataGateway.cs:56-95 | a first attempt that opens, executes and converts returns the converted value after Open, Close and the two disposals |
| SqlCommand.UnretriedFailureDisposesOnly | src/Micron.SqlClient/IDataGateway.cs:56-95 | a first failure no condition retries is rethrown after that attempt: a failure to open or execute leaves out Close, while a cast failure comes after Open and Close; the two disposals follow either way |
| SqlCommand.ScalarAgreesWithHandler | src/Micron.SqlClient/IDataGateway.cs:56-69 | Command.Scalar's retried outcome equals SqlDbCommandHandler.Scalar's over the same driver answers (src/Micron.SqlClient/DbCommandHandler.cs:40-50); only the calls differ |
| SqlCommand.StringAgreesWithHandler | src/Micron.SqlClient/IDataGateway.cs:71-84 | Command.String's retried outcome equals SqlDbCommandHandler.String's over the same driver answers |
| SqlCommand.NewDataStatement | src/Micron.SqlClient/IDataGateway.cs:149-154 | a new statement has empty text, no parameters and timeout 0 |
| SqlCommand.NewDataCommand | src/Micron.SqlClient/IDataGateway.cs:156-159 | a new data command expects -1 affected rows |
| SqlCommand.DefaultExpectationPassesOnlyMinusOne | src/Micron.SqlClient/IDataGateway.cs:158 | a command left at the default expectation passes the gateway's affected-rows check exactly when the driver reports -1 |
| SqlCommand.DefaultConverter | src/Micron.SqlClient/IDataGateway.cs:166-174 | the default converter maps every database value to the fallback |
| SqlCommand.DefaultConverterIgnoresValue | src/Micron.SqlClient/IDataGateway.cs:168-173 | with the default converter any two database values read the same |
| SqlCommandFactory.CommandFactory.constructor | src/Micron.SqlClient/CommandFactory.cs:13-17 | no connection factory is registered until the configuration calls Connection |
| SqlCommandFactory.CommandFactory.Connection | src/Micron.SqlClient/CommandFactory.cs:86-90 | registers the connection factory |
| SqlCommandFactory.CommandFactory.OnException | src/Micron.SqlClient/CommandFactory.cs:92-100 | both overloads ignore their filter, store nothing and return the builder |
| SqlCommandFactory.CommandFactory.Execute | src/Micron.SqlClient/CommandFactory.cs:19-37 | without a registered connection factory the call throws a NullReferenceException; otherwise it runs the commands as the gateway's Execute does |
| SqlCommandFactory.CommandFactory.Scalar | src/Micron.SqlClient/CommandFactory.cs:39-45 | without a registered connection factory the call throws; otherwise the converted scalar, as the gateway's Scalar |
| SqlCommandFactory.CommandFactory.Query | src/Micron.SqlClient/CommandFactory.cs:47-56 | without a registered connection factory the call throws; otherwise one mapped item per row, as the gateway's Query |
| SqlDataCommand.DataCommand.constructor | src/Micron.SqlClient/DataCommand.cs:15-19 | keeps the retry handler; the command is not yet disposed |
| SqlDataCommand.DataCommand.Try | src/Micron.SqlClient/DataCommand.cs:128-146 | the retried attempts (open, then exec) and a final Close, as the handler's Try specification; the command is disposed afterwards |
| SqlDataCommand.DataCommand.TryAsync | src/Micron.SqlClient/DataCommand.cs:148-172 | a token cancelled on entry throws before anything is touched and disposes nothing; otherwise the retried attempts, each checking the token first, then Close and disposal |
| SqlDataCommand.DataCommand.Read | src/Micron.SqlClient/DataCommand.cs:21-39 | the reader's rows go to the callback in order within the retried Try |
| SqlDataCommand.DataCommand.Scalar | src/Micron.SqlClient/DataCommand.cs:41-51 | the retried scalar, cast as SqlDbCommandHandler.ScalarExec casts it: DBNull read as default(T), null and a value of another type thrown |
| SqlDataCommand.DataCommand.String | src/Micron.SqlClient/DataCommand.cs:53-63 | the retried scalar, cast as SqlDbCommandHandler.StringExec casts it: DBNull read as "", null as the null string, a value of another type thrown |
| SqlDataCommand.DataCommand.Execute | src/Micron.SqlClient/DataCommand.cs:65-69 | the retried affected-row count |
| SqlDataCommand.DataCommand.ReadAsync | src/Micron.SqlClient/DataCommand.cs:71-91 | Read through the asynchronous Try |
| SqlDataCommand.DataCommand.ScalarAsync | src/Micron.SqlClient/DataCommand.cs:93-105 | Scalar through the asynchronous Try |
| SqlDataCommand.DataCommand.StringAsync | src/Micron.SqlClient/DataCommand.cs:107-118 | String through the asynchronous Try |
| SqlDataCommand.DataCommand.ExecuteAsync | src/Micron.SqlClient/DataCommand.cs:120-126 | Execute through the asynchronous Try |
| SqlDataCommand.TryPropagatesUnchanged | src/Micron.SqlClient/DataCommand.cs:133-145 | a failure of Try is one an attempt's Open or exec threw, or the backoff's, never a wrapped one |
| SqlDataGateway.RunAttempt | src/Micron.SqlClient/DataGateway.cs:32-47 | one attempt connects, begins a ReadCommitted transaction, runs the commands in order with the expected-affected check, commits and closes; the transaction and connection are disposed on every exit |
| SqlDataGateway.Execute | src/Micron.SqlClient/DataGateway.cs:30-50 | the retry handler's loop around whole attempts, each with its own connection and transaction |
| SqlDataGateway.AttemptCommitsOnlyWhenAllMatched | src/Micron.SqlClient/DataGateway.cs:36-45 | an attempt commits exactly when the connection and transaction were obtained and every command affected its expected count |
| SqlDataGateway.ExecuteRetriesWholeTransaction | src/Micron.SqlClient/DataGateway.cs:30-50 | a retried failed attempt is followed by a full second attempt from the first command, and its success is the outcome |
| SqlDataGateway.SucceedingAttemptRanAll | src/Micron.SqlClient/DataGateway.cs:32-47 | a successful attempt ran every command with a matching count, committed and closed, in that order |
| SqlDataGateway.Converted | src/Micron.SqlClient/DataGateway.cs:56-66 | a successful conversion is returned unchanged; a failing one becomes a MicronException wrapping the conversion's exception |
| SqlDataGateway.Scalar | src/Micron.SqlClient/DataGateway.cs:52-80 | the value returned is the one assigned by the last attempt of the retry handler's loop |
| SqlDataGateway.ScalarWrapsConversionFailure | src/Micron.SqlClient/DataGateway.cs:56-73 | a conversion failure on an unretried first attempt surfaces as that MicronException |
| SqlDataGateway.ScalarReturnsConverted | src/Micron.SqlClient/DataGateway.cs:68-79 | a first attempt that completes returns the converted value |
| SqlDataGateway.CreationRunsOnce | src/Micron.SqlClient/DataGateway.cs:98-102 | the retried lambda only creates the lazy enumerable, so it never fails and runs exactly once |
| SqlDataGateway.QueryAsWritten | src/Micron.SqlClient/DataGateway.cs:104-109 | as written, after the enumerable completes one more item, the enumerator's Current, is yielded; a failure ends the query with the values yielded so far |
| SqlDataGateway.Query | src/Micron.SqlClient/DataGateway.cs:82-110 | corrected: exactly the enumerable's values are yielded, and its failure, if any, ends the query |
| SqlDataGateway.EnumerateYieldsPerRow | src/Micron.SqlClient/DataGateway.cs:86-96 | over n rows that all map, the enumerable completes with the n mapped values in reader order |
| SqlDataGateway.DataGateway.constructor | src/Micron.SqlClient/DataGateway.cs:24-28 | no connection factory, retry expression or retry handler before configuration |
| SqlDataGateway.DataGateway.Connection | src/Micron.SqlClient/DataGateway.cs:143-148 | registers the connection factory, leaving the rest unchanged |
| SqlDataGateway.DataGateway.OnException | src/Micron.SqlClient/DataGateway.cs:150-155 | a fresh retry expression replaces the previous one; with a condition it accepts exactly the exceptions of the type that satisfy it, and without one it accepts every exception, whatever its type, as Micron's configurer does (src/Micron/Retry/RetryHandler.cs:111-131) |
| SqlDataGateway.DataGateway.Retry | src/Micron.SqlClient/DataGateway.cs:157-158 | builds the retry handler from the last retry expression with the given times and backoff; before any OnException the expression is null and the call throws |
| SqlDataGateway.DataGateway.ExecuteRequest | src/Micron.SqlClient/DataGateway.cs:30-50 | a retry handler never built is null and Execute throws; otherwise Execute as specified |
| SqlDataGateway.LastOnExceptionWins | src/Micron.SqlClient/DataGateway.cs:150-158 | the handler Retry builds retries exactly the exceptions the last OnException condition accepts |
| SqlGateway.DriverCommand.constructor | src/Micron.SqlClient/SqlGateway.cs:63 | a command the connection creates has no text, no transaction and no parameters |
| SqlGateway.BuildCommand | src/Micron.SqlClient/SqlGateway.cs:61-78 | a new command with the given text, enlisted in the transaction exactly when one is given, with one parameter per value, in order |
| SqlGateway.ExecuteCommands | src/Micron.SqlClient/SqlGateway.cs:22-40 | the loop's outcome and calls are those of the Execute specification: commands in order inside one transaction, the first failure or mismatch thrown, the transaction and connection disposed on every exit |
| SqlGateway.CommitOnlyWhenAllMatched | src/Micron.SqlClient/SqlGateway.cs:24-39 | Commit is reached exactly when the connection and transaction were obtained and every command affected its expected count, and then Execute returns Commit's outcome after running all commands in order |
| SqlGateway.FailedRunSkipsCommit | src/Micron.SqlClient/SqlGateway.cs:30-39 | a run in which some command failed or mismatched never commits, and not all commands matched |
| SqlGateway.UnfailedRunMatchedAll | src/Micron.SqlClient/SqlGateway.cs:30-38 | a run in which no command threw matched every expectation |
| SqlGateway.StopsAtFirstMismatch | src/Micron.SqlClient/SqlGateway.cs:30-38 | the first command whose count differs from its expectation throws the MicronException naming both counts; no later command runs and nothing is committed |
| SqlGateway.ExecuteScalar | src/Micron.SqlClient/SqlGateway.cs:42-48 | a failure to connect or to execute propagates; otherwise the conversion's outcome, with the connection disposed |
| SqlGateway.MapOutcome | src/Micron.SqlClient/SqlGateway.cs:55-58 | row i's outcome succeeds exactly when Map succeeds on it |
| SqlGateway.Mapped | src/Micron.SqlClient/SqlGateway.cs:55-58 | the values yielded for the first m rows are their mapped values, in reader order |
| SqlGateway.ReadQuery | src/Micron.SqlClient/SqlGateway.cs:50-59 | one mapped value per row in reader order until Map fails, whose exception ends the query |
| SqlGateway.QueryYieldsPerRow | src/Micron.SqlClient/SqlGateway.cs:50-59 | when every Map succeeds Query completes with exactly one value per row |
| SqlGateway.Gateway.constructor | src/Micron.SqlClient/SqlGateway.cs:12-20 | no connection factory and no retry configurations before configuration |
| SqlGateway.Gateway.Connection | src/Micron.SqlClient/SqlGateway.cs:89-94 | registers the connection factory and keeps the retry configurations |
| SqlGateway.Gateway.OnException | src/Micron.SqlClient/SqlGateway.cs:96-108 | the configuration the filter expression builds is appended, never replacing an earlier one |
| SqlGateway.Gateway.Execute | src/Micron.SqlClient/SqlGateway.cs:22-40 | an unset connection factory throws a NullReferenceException; otherwise Execute as specified |
| SqlGateway.Gateway.Scalar | src/Micron.SqlClient/SqlGateway.cs:42-48 | an unset connection factory throws; otherwise the scalar as specified |
| SqlGateway.Gateway.Query | src/Micron.SqlClient/SqlGateway.cs:50-59 | an unset connection factory throws; otherwise the query as specified |
| SqlDbCommandHandler.Opens | src/Micron.SqlClient/DbCommandHandler.cs:234-239 | m attempts make m connection openings |
| SqlDbCommandHandler.Try | src/Micron.SqlClient/DbCommandHandler.cs:227-245 | the retry handler's outcome over attempts that each open the connection and run exec, then one Close in `finally` |
| SqlDbCommandHandler.TryReopensPerAttempt | src/Micron.SqlClient/DbCommandHandler.cs:227-245 | Try opens the connection once per attempt, at least once, closes it once at the end, and returns the outcome of its last attempt or the exception of the backoff after it |
| SqlDbCommandHandler.TrySucceedsFirst | src/Micron.SqlClient/DbCommandHandler.cs:227-245 | a first attempt that opens and executes returns the command's value after one Open and one Close |
| SqlDbCommandHandler.TryOpenFailureRethrown | src/Micron.SqlClient/DbCommandHandler.cs:232-244 | there is no catch: an open failure no condition accepts is rethrown unchanged, after the connection is closed |
| SqlDbCommandHandler.TryExecFailureRethrown | src/Micron.SqlClient/DbCommandHandler.cs:227-245 | a command failure on a first attempt that opened, which no retry condition accepts, is rethrown unchanged after one Open, and the connection is closed |
| SqlDbCommandHandler.AttemptOpens | src/Micron.SqlClient/DbCommandHandler.cs:258-266 | at most one opening per attempt; an attempt that finds the token cancelled opens nothing |
| SqlDbCommandHandler.TryAsync | src/Micron.SqlClient/DbCommandHandler.cs:247-272 | a token cancelled on entry throws before anything is touched; otherwise the retried attempts, each checking the token before opening, then Close |
| SqlDbCommandHandler.AttemptOpensUncancelled | src/Micron.SqlClient/DbCommandHandler.cs:258-266 | with an uncancelled token every attempt opens the connection |
| SqlDbCommandHandler.TryAsyncUncancelled | src/Micron.SqlClient/DbCommandHandler.cs:247-272 | with a token that is never cancelled and a retry handler whose interval is unset or validated, TryAsync behaves as Try (Task.Delay and Thread.Sleep then refuse the same delays) |
| SqlDbCommandHandler.CancelledAttemptStops | src/Micron.SqlClient/DbCommandHandler.cs:258-266 | a token cancelled at the first attempt's check, with no condition accepting cancellation, fails with OperationCanceledException without opening, then closes |
| SqlDbCommandHandler.ScalarExec | src/Micron.SqlClient/DbCommandHandler.cs:42-47 | the driver's failure propagates; otherwise the answer is cast as MicronDbCommandHandler.Scalar casts it: DBNull gives default(T), null NullReferenceException, another type InvalidCastException |
| SqlDbCommandHandler.StringExec | src/Micron.SqlClient/DbCommandHandler.cs:54-59 | the driver's failure propagates; DBNull becomes "", null the null string, a string is returned, and a value of another type throws InvalidCastException |
| SqlDbCommandHandler.RowsUpTo | src/Micron.SqlClient/DbCommandHandler.cs:27-30 | the row callbacks of rows 0 .. m-1, in order |
| SqlDbCommandHandler.ReadRows | src/Micron.SqlClient/DbCommandHandler.cs:23-35 | the reader loop delivers rows to the callback as the Read specification says |
| SqlDbCommandHandler.ReadDeliversInOrder | src/Micron.SqlClient/DbCommandHandler.cs:23-35 | the callback runs once per row in reader order; Read completes exactly when no callback threw, and otherwise stops at the first that did, with its exception |
| SqlDbCommandHandler.RunAttempt | src/Micron.SqlClient/DbCommandHandler.cs:87-111 | one attempt opens, begins, executes every command in order, reports the counts, commits; the `using` transaction is disposed on every exit |
| SqlDbCommandHandler.Transaction | src/Micron.SqlClient/DbCommandHandler.cs:70-117 | an empty array does nothing, commands on different connections are refused, otherwise the retried attempts and one Close in `finally` |
| SqlDbCommandHandler.CompleteAttemptCommits | src/Micron.SqlClient/DbCommandHandler.cs:91-110 | an attempt that reaches its commit made every call in order and returns what Commit returns |
| SqlDbCommandHandler.IncompleteAttemptFails | src/Micron.SqlClient/DbCommandHandler.cs:91-110 | an attempt that does not reach its commit fails and never commits |
| SqlDbCommandHandler.CommandFailureStops | src/Micron.SqlClient/DbCommandHandler.cs:94-100 | a command that throws ends the attempt with its exception before any callback or Commit |
| SqlDbCommandHandler.CallbackFailureStops | src/Micron.SqlClient/DbCommandHandler.cs:102-108 | with every command done, a callback that throws ends the attempt before Commit |
| SqlDbCommandHandler.AttemptSucceedsIffCommitted | src/Micron.SqlClient/DbCommandHandler.cs:91-110 | an attempt succeeds exactly when it reaches its commit and the commit succeeds |
| SqlDbCommandHandler.TransactionClosesConnection | src/Micron.SqlClient/DbCommandHandler.cs:73-116 | empty input does nothing; mixed connections throw RootCauseException with no call; otherwise the first attempt opens the connection and it is closed once, after the last attempt |
| SqlDbCommandHandler.AttemptTraceShape | src/Micron.SqlClient/DbCommandHandler.cs:87-111 | the calls of one or more attempts start with Open and never close the connection |
| SqlDbCommandHandler.AttemptCloses | src/Micron.SqlClient/DbCommandHandler.cs:87-111 | an attempt opens first and never closes the connection itself |
| SqlDbCommandHandler.CallbacksRepeatAfterFailedCommit | src/Micron.SqlClient/DbCommandHandler.cs:87-111 | a commit failing with a retried exception re-runs the whole body, so the callbacks fire again on the second attempt with its own counts |
| SqlDbCommandHandler.RetriedOnce | src/Micron.SqlClient/Retry/RetryHandler.cs:28-51 | a retried first failure followed by a success ends after two invocations with one backoff |
| SqlDbCommandHandler.Read | src/Micron.SqlClient/DbCommandHandler.cs:19-38 | the reader loop inside Try |
| SqlDbCommandHandler.Scalar | src/Micron.SqlClient/DbCommandHandler.cs:40-50 | the scalar exec inside Try |
| SqlDbCommandHandler.String | src/Micron.SqlClient/DbCommandHandler.cs:52-62 | the string exec inside Try |
| SqlDbCommandHandler.Execute | src/Micron.SqlClient/DbCommandHandler.cs:64-68 | ExecuteNonQuery inside Try |
| SqlDbCommandHandler.ReadAsync | src/Micron.SqlClient/DbCommandHandler.cs:119-139 | the reader loop inside TryAsync |
| SqlDbCommandHandler.ScalarAsync | src/Micron.SqlClient/DbCommandHandler.cs:141-153 | the scalar exec inside TryAsync |
| SqlDbCommandHandler.StringAsync | src/Micron.SqlClient/DbCommandHandler.cs:155-166 | the string exec inside TryAsync |
| SqlDbCommandHandler.ExecuteAsync | src/Micron.SqlClient/DbCommandHandler.cs:168-174 | ExecuteNonQueryAsync inside TryAsync |
| SqlDbCommandHandler.ScalarMapsDbNull | src/Micron.SqlClient/DbCommandHandler.cs:40-50 | on a first attempt that opens and reads, DBNull gives default(T) and a value of type T is returned, after one Open and one Close; null (no row) ends the call with NullReferenceException and a value of another type with InvalidCastException, after that one attempt, when no retry condition accepts the exception |
| SqlDbCommandHandler.StringMapsDbNull | src/Micron.SqlClient/DbCommandHandler.cs:52-62 | on a first attempt that opens and reads, DBNull gives "", null (no row) the null string and a string is returned, after one Open and one Close; a value of another type ends the call with InvalidCastException after that attempt when no retry condition accepts it |
| SqlDbCommandHandler.ReadFirstAttempt | src/Micron.SqlClient/DbCommandHandler.cs:19-38 | a first attempt whose reader yields rows completes exactly when the callback succeeds on every row |
| SqlSession.TransactionDisposal | src/Micron.SqlClient/Transaction.cs:15-42 | disposing the no-op transaction makes no driver call; disposing an adapter disposes its transaction |
| SqlSession.Release | src/Micron.SqlClient/Session.cs:73-78 | releasing the session disposes the transaction, then closes and disposes the connection, in that order |
| SqlSession.Session.constructor | src/Micron.SqlClient/Session.cs:16-21 | a new session keeps its isolation level, holds the no-op transaction, is not disposed and has made no call |
| SqlSession.Session.Open | src/Micron.SqlClient/Session.cs:23-44 | the connection is opened first; a transaction is begun at the session's level exactly when a level was given and the connection opened, and then becomes the session's transaction; a failure leaves the transaction as it was |
| SqlSession.Session.Commit | src/Micron.SqlClient/Session.cs:46-49 | on the no-op transaction Commit does nothing; on an adapter it is the driver's commit |
| SqlSession.Session.Dispose | src/Micron.SqlClient/Session.cs:60-64 | the first Dispose releases the transaction and the connection; later ones change nothing |
| SqlSession.Session.DisposeCore | src/Micron.SqlClient/Session.cs:66-81 | the flag is set whatever `disposing` says; only a first call with `disposing` releases anything |
| SqlSession.Session.DisposeAsync | src/Micron.SqlClient/Session.cs:51-58 | releases the transaction and the connection without looking at the flag, then sets it |
| SqlSession.NoLevelNoTransaction | src/Micron.SqlClient/Session.cs:23-64 | without an isolation level, opening, committing and disposing makes no transaction call at all |
| SqlSession.DisposeTwice | src/Micron.SqlClient/Session.cs:51-81 | a second Dispose does nothing, while a second DisposeAsync releases the transaction and the connection again |
| SqlSessionExceptionDecorator.Call | src/Micron.SqlClient/SessionExceptionDecorator.cs:18-56 | a successful inner call is returned unchanged; a failure comes back wrapped once in a MicronException; the inner calls are unchanged |
| SqlSessionExceptionDecorator.Commit | src/Micron.SqlClient/SessionExceptionDecorator.cs:12-13 | the session's commit through Try: a driver commit failure is wrapped, a success or the no-op commit returns normally |
| SqlSessionExceptionDecorator.Dispose | src/Micron.SqlClient/SessionExceptionDecorator.cs:15-16 | the session's dispose through Try, which cannot fail here: released once, then nothing |
| SqlSessionRetryDecorator.Retried | src/Micron.SqlClient/SessionRetryDecorator.cs:19-29 | Read, ReadMultiple, Scalar and Execute make the inner call m >= 1 times, record the events of those m calls in order, and end with the last call's outcome or the exception of the backoff after it |
| SqlSessionRetryDecorator.ForwardedOnce | src/Micron.SqlClient/SessionRetryDecorator.cs:17-63 | Commit, CommitAsync, Dispose and DisposeAsync are the inner session's call made once, outcome and events, whatever the retry handler's conditions, retry count and backoff |
| SqlSessionRetryDecorator.RetriedAndForwardedOnPersistentFailure | src/Micron.SqlClient/SessionRetryDecorator.cs:17-34 | under a condition that accepts the exception and a validated interval, an inner call that always fails is made RetryCount + 2 times by a retried operation and once by Commit or Dispose, both ending with that exception |
| SqlSessionRetryDecorator.RetriedOnceWhenSettled | src/Micron.SqlClient/SessionRetryDecorator.cs:19-29 | a call that returns on its first attempt, or fails with an exception no condition accepts, is made once and its outcome returned unchanged |
| SqlSessionRetryDecorator.ReadAsyncAsWritten | src/Micron.SqlClient/SessionRetryDecorator.cs:36-40 | as written: however deep the self-call is unfolded, no inner call is ever made |
| SqlSessionRetryDecorator.ReadAsync | src/Micron.SqlClient/SessionRetryDecorator.cs:36-47 | corrected: a first inner attempt that returns, or fails with an exception no condition accepts, is the whole outcome |
| SqlSessionRetryDecorator.ReadAsyncNeverReachesInner | src/Micron.SqlClient/SessionRetryDecorator.cs:36-40 | as written, ReadAsync never returns a value and never calls the inner session, however deep its self-call is unfolded |
| SqlSessionRetryDecorator.ReadAsyncReachesInner | src/Micron.SqlClient/SessionRetryDecorator.cs:36-47 | corrected: a settled first attempt of the inner ReadAsync is the whole outcome, inner calls included |
| MicronTypeMap.MapTypeToDbType | src/Micron/MicronTypeMap.cs:16-29 | the result is always a DbType of the table, so the lookup never throws; null gives Object |
| MicronTypeMap.ScalarEntries | src/Micron/MicronTypeMap.cs:45-83 | each of the nine listed value types and its Nullable form are keys of the table with the same DbType, and the Nullable form is in the nullable-struct list |
| MicronTypeMap.MapTypeToDbTypeByType | src/Micron/MicronTypeMap.cs:16-29 | a listed value type and its Nullable form share one DbType; string gives String, byte[] gives Binary; object and every unlisted type fall back to Object |
| MicronTypeMap.NullableMapsLikePlain | src/Micron/MicronTypeMap.cs:62-81 | T and Nullable<T> map to the same DbType |
| MicronTypeMap.IsNullable | src/Micron/MicronTypeMap.cs:40-57 | true for every class type and the nine listed Nullable structs; false for every plain value type and every Nullable struct the list misses |
| MicronTypeMap.MapMicronParameterTypeToDbType | src/Micron/MicronTypeMap.cs:31-38 | null gives String; otherwise the numeric cast, so each named data type becomes the DbType of the same name |
| MicronTypeMap.TableDbTypesHaveDataTypes | src/Micron/MicronParameterDataType.cs:6-19 | every DbType of the table except Time is the number of a named data type, which maps back to it; Time has no data type |
| MicronParameter.ParameterValues | src/Micron/MicronParameter.cs:27-36 | seven strings, the first the name |
| MicronParameter.MicronParameter.GetParameterValues | src/Micron/MicronParameter.cs:27-36 | seven strings: the name first and IsNullable printed as "True" or "False" fourth |
| MicronParameter.DataTypeNameInjective | src/Micron/MicronParameter.cs:30 | distinct data types print differently, named or not |
| MicronParameter.DataTypeNameStart | src/Micron/MicronParameterDataType.cs:6-19 | a named data type prints as a capitalised name; any other value as its number |
| MicronParameter.DefinedNamesDistinct | src/Micron/MicronParameterDataType.cs:6-19 | no two named data types share a name |
| MicronParameter.DirectionNameInjective | src/Micron/MicronParameter.cs:31 | distinct directions print differently |
| MicronParameter.ValuesIdentifyProperties | src/Micron/MicronParameter.cs:27-36 | two parameters yield the same seven values exactly when all seven properties agree |
| MicronParameter.MicronParameter.constructor | src/Micron/MicronParameter.cs:8-14 | a new parameter has Name "" and every other property at its type's default |
| MicronParameter.MicronParameter.Clone | src/Micron/MicronParameter.cs:16-25 | a new object with all seven properties copied, so it yields the same parameter values |
| MicronCommandFactory.Key | src/Micron/MicronCommandFactory.cs:18 | the key of position p is "@" followed by p's digits |
| MicronCommandFactory.KeyInjective | src/Micron/MicronCommandFactory.cs:18 | distinct positions have distinct keys |
| MicronCommandFactory.PositionalLookup | src/Micron/MicronCommandFactory.cs:13-19 | the p-th value is stored under "@p" |
| MicronCommandFactory.PositionalKeys | src/Micron/MicronCommandFactory.cs:13-19 | every key of the dictionary is "@p" for a position p |
| MicronCommandFactory.PositionalSize | src/Micron/MicronCommandFactory.cs:13-19 | the dictionary has one entry per value, so Dictionary.Add never meets a duplicate key |
| MicronCommandFactory.NextKeyIsNew | src/Micron/MicronCommandFactory.cs:18 | the key of the next position is not yet in the dictionary |
| MicronCommandFactory.CreateCommand | src/Micron/MicronCommandFactory.cs:10-26 | the command text is passed on unchanged with a dictionary holding exactly the values, value p under "@p" |
| ImdbNull.IsImdbNull | src/Micron.TestClient/DataModel/ImdbNull.cs:14-15 | true exactly for the two characters backslash and N; null is not the marker |
| ImdbNull.AsString | src/Micron.TestClient/DataModel/ImdbNull.cs:7-21 | the instance and null both convert to the one string IsImdbNull accepts |
| ImdbNull.Equals | src/Micron.TestClient/DataModel/ImdbNull.cs:11-17 | equal exactly to an ImdbNull, and equal objects share the hash code |
| ImdbNull.ToString | src/Micron.TestClient/DataModel/ImdbNull.cs:18 | the printed instance is the marker IsImdbNull accepts |
| ImdbNull.GetHashCode | src/Micron.TestClient/DataModel/ImdbNull.cs:17 | every instance hashes to 0 |
| ImdbConst.Any | src/Micron.TestClient/DataModel/ImdbConst.cs:10 | true exactly when some character satisfies the predicate |
| ImdbConst.New | src/Micron.TestClient/DataModel/ImdbConst.cs:8-14 | succeeds exactly when every character is a letter or digit; otherwise an ArgumentException naming "value" |
| TitleTsvRow.RenderAll | src/Micron.TestClient/DataModel/TitleTsvRow.cs:32-36 | each property written as string.Join writes it, a null one as "" |
| TitleTsvRow.Present | src/Micron.TestClient/DataModel/TitleTsvRow.cs:18-28 | properties read from a line are never null |
| TitleTsvRow.TitleTsvRow.constructor | src/Micron.TestClient/DataModel/TitleTsvRow.cs:5-13 | TitleId is "", the other eight properties null |
| TitleTsvRow.TitleTsvRow.Fields | src/Micron.TestClient/DataModel/TitleTsvRow.cs:5-13 | the nine properties |
| TitleTsvRow.TitleTsvRow.FromLine | src/Micron.TestClient/DataModel/TitleTsvRow.cs:15-30 | succeeds exactly when the line has at least nine tab-separated parts, part p going to the p-th property and later parts ignored; a shorter line fails with IndexOutOfRangeException |
| TitleTsvRow.LineRoundTrip | src/Micron.TestClient/DataModel/TitleTsvRow.cs:15-36 | a line of exactly nine fields is written back by ToString as it was read |
| TitleTsvRow.RowRoundTrip | src/Micron.TestClient/DataModel/TitleTsvRow.cs:15-36 | the line ToString writes for tab-free properties reads back as the nine properties in order, a null one as "" |
| TitleTsvRow.TitleTsvRow.ToString | src/Micron.TestClient/DataModel/TitleTsvRow.cs:32-36 | the line written for tab-free properties splits back into the nine properties in order, a null one as "" |
| TitleDbRow.NullableInt | src/Micron.TestClient/DbModel/TitleDbRow.cs:34-42 | the marker gives null; anything else fails or gives a number; a null field gives 0; a number printed by Int32.ToString reads back as itself |
| TitleDbRow.FromFields | src/Micron.TestClient/DbModel/TitleDbRow.cs:25-47 | succeeds exactly when the two years and the runtime convert, failing with the first conversion's exception; the text fields are copied, IsAdult is 1 exactly for "1", and each number is null exactly for the marker |
| TitleDbRow.From | src/Micron.TestClient/DbModel/TitleDbRow.cs:25-47 | succeeds exactly when the two years and the runtime convert, and then copies the text fields |
| TitleDbRow.FromReadsPrintedNumbers | src/Micron.TestClient/DbModel/TitleDbRow.cs:34-42 | a row whose numbers are written as Int32.ToString writes them converts to those numbers |
| TitleDbRow.Parts | src/Micron.TestClient/DbModel/TitleDbRow.cs:19-23 | ToString writes nine parts |
| TitleDbRow.NumberHasNoTab | src/Micron.TestClient/DbModel/TitleDbRow.cs:19-23 | a printed number holds no tab |
| TitleDbRow.PartsSplitBack | src/Micron.TestClient/DbModel/TitleDbRow.cs:19-23 | the nine parts of a row with tab-free text, joined with tabs, split back into those parts |
| TitleDbRow.ToString | src/Micron.TestClient/DbModel/TitleDbRow.cs:19-23 | the line ToString writes for a row with tab-free text splits back into its nine parts |
| TitleDbRow.RenderIntReadsBack | src/Micron.TestClient/DbModel/TitleDbRow.cs:19-42 | a number ToString writes reads back through Convert.ToInt32; a null one, written as "", does not parse |
| TitleDbRow.TableColumns | src/Micron.TestClient/DbModel/TitleDbRow.cs:49-103 | one column per property in property order, the first the only primary key, runtime_minutes not nullable |
| TitleDbRow.NullMask | src/Micron.TestClient/DbModel/TitleDbRow.cs:9-17 | one flag per property |
| TitleDbRow.MarkerRuntimeRefused | src/Micron.TestClient/DbModel/TitleDbRow.cs:40-42 | as written, every line whose runtime is the marker converts to a row the table cannot hold |
| TitleDbRow.LineWithoutRuntime | src/Micron.TestClient/DbModel/TitleDbRow.cs:92-97 | a concrete title line whose years and runtime are \N is such a line |
| TitleDbRow.TableColumnsCorrected | src/Micron.TestClient/DbModel/TitleDbRow.cs:92-97 | corrected: the same columns with runtime_minutes nullable like the two years |
| TitleDbRow.CorrectedAdmitsParsedRows | src/Micron.TestClient/DbModel/TitleDbRow.cs:25-103 | every row converted from a parsed line fits the corrected table |
| Text.Split | src/Micron.TestClient/DataModel/TitleTsvRow.cs:18 | at least one part, and no part holds the separator |
| Text.JoinSplit | src/Micron.TestClient/DataModel/TitleTsvRow.cs:18-36 | joining the parts of a split gives back the string |
| Text.SplitPrefix | src/Micron.TestClient/DataModel/TitleTsvRow.cs:18 | a separator-free prefix becomes the start of the first part |
| Text.SplitJoin | src/Micron.TestClient/DataModel/TitleTsvRow.cs:18-36 | splitting a join of separator-free parts gives back the parts |
| Text.DigitChar | src/Micron/MicronParameter.cs:33-35 | the digit character of a value below ten |
| Text.NatToString | src/Micron/MicronCommandFactory.cs:18 | decimal digits with no leading zero |
| Text.IntToString | src/Micron/MicronParameter.cs:33-35 | digits with an optional leading minus sign, ending in a digit |
| Text.DigitsOfNat | src/Micron/MicronCommandFactory.cs:18 | reading back the decimal form of n gives n |
| Text.IntToStringInjective | src/Micron/MicronParameter.cs:33-35 | different integers print differently |
| Text.NegativeToStringInjective | src/Micron/MicronParameter.cs:33-35 | different negative integers print differently |
| Text.SignTellsApart | src/Micron/MicronParameter.cs:33-35 | a negative and a non-negative integer print differently |
| Text.TrimStart | src/Micron.TestClient/DbModel/TitleDbRow.cs:34-42 | Convert.ToInt32 skips leading white space: a suffix of the input that starts with no white space |
| Text.TrimEnd | src/Micron.TestClient/DbModel/TitleDbRow.cs:34-42 | and trailing white space: a prefix of the input that ends with no white space |
| Text.ParseInt32 | src/Micron.TestClient/DbModel/TitleDbRow.cs:34-42 | null gives 0; a result is always a 32-bit value; a failure is a FormatException or an OverflowException |
| Text.ParsePrinted | src/Micron.TestClient/DbModel/TitleDbRow.cs:34-42 | Convert.ToInt32 reads back what Int32.ToString printed |

## Left out

- MicronTypeMap.IsNullable: the modelled types have no interface types. Type.IsClass is false for an interface, so the source calls an interface type not nullable; every reference type of the model is a class.
- MicronCommandHandlerLoggingDecorator: the MicronCommand operations read CommandText again for the entry after the inner call, where the DbCommand ones keep the text read before it. Commands are values in this model, so a command the inner handler changes in place is not captured.
- MicronCommandHandler Execute, Read, Scalar, String and their async forms (src/Micron/MicronCommandHandler.cs:22-107) are not modelled. Each only opens the connection, maps the command, delegates to the inner handler and closes the connection. The delegation is modelled in the decorators over the same interface.
- Micron's DbCommandHandler Read, ReadAsync, Execute and ExecuteAsync (src/Micron/DbCommandHandler.cs:13-78) are not modelled: they only call the driver. Its Scalar and String, and their async forms, are modelled by what they make of the driver's answer (MicronDbCommandHandler.Scalar and String). The reader loop is modelled once, in SqlDbCommandHandler.ReadRows.
- SqlDbCommandHandler.TransactionAsync (src/Micron.SqlClient/DbCommandHandler.cs:176-225) is modelled by Transaction. Its awaits change no order of effects the model records.
- The async forms of every operation are modelled by their synchronous forms: a Task is its eventual outcome. Two things keep them apart. The asynchronous retry loops back off through BackoffInterval.BackoffAsync, so they carry their own run (MicronRetryHandler.Attempts with async set), which AsyncRunsAgree equates with the synchronous run for every interval the BackoffInterval constructors can build. Cancellation is modelled only where a token changes what happens (UntilCancelled, InSetsOf, BatchAsync, the retry decorators' cancellation checks).
- Thread.Sleep and Task.Delay are modelled as a backoff event carrying the milliseconds value; no time passes. Their argument check is modelled: a delay below -1 throws ArgumentOutOfRangeException.
- Backoff and BackoffAsync (MicronBackoffInterval.Backoff, MicronBackoffInterval.BackoffAsync, SqlBackoffInterval.Backoff, SqlRootBackoffInterval.Backoff): a delay of exactly -1 (Timeout.Infinite) is modelled as returning at once. In the source, Thread.Sleep(-1) and Task.Delay(-1) never return, and Task.Delay(-1, ct) waits until the token is cancelled. Only a calculation that the constructors do not validate, or the unvalidated last attempt of the root SqlClient interval, can produce it.
- Execute, AttemptsShape and PersistentFailure (MicronRetryHandler, SqlRetryHandler, SqlRootRetryHandler): a run whose backoff delay is -1 is modelled as continuing with the next attempt, where the source blocks for ever, for the reason above.
- Logging is modelled as events in the trace. Logging callbacks are taken never to throw.
- Driver connections, commands, readers and transactions are modelled by the outcomes and events they produce. Driver failures inside Dispose are not modelled.
- Finalizers and GC.SuppressFinalize are not modelled.
- SqlDbCommandHandler.TrySpec, SqlDbCommandHandler.TryAsyncSpec and SqlDbCommandHandler.TransactionSpec record the connection's Open and the `finally` Close, and Transaction its transaction's disposal, but not the `using var cmd` and `using var conn` disposals (src/Micron.SqlClient/DbCommandHandler.cs:83, 190, 229-230, 253-254). Those disposals run on every exit path after the Close and change no outcome.
- MicronCommandHandler.Batch and MicronCommandHandler.BatchAsync record the windows handed to the inner Transaction and the callbacks, not the batch's own connection: its `using var conn` and Open (src/Micron/MicronCommandHandler.cs:158-159), the disposal of each window's commands (:175, :186) and the final conn.Close() (:189) are not recorded.
- DataGateway.Retry(times, configureBackoff) (src/Micron.SqlClient/DataGateway.cs:161-162) is not modelled separately; it configures the same handler as Retry(times, milliseconds).
- DataGateway's builder, as written, is handed a SqlGateway where a DataGateway is declared. The model treats it as configuring the DataGateway.
- The BackoffInterval constructors that take a TimeSpan are not modelled; they convert to milliseconds and defer to the calculation constructor.
- src/Micron/Retry/RetryTimes.cs is not part of this model; its maximum is taken to be 5, the bound the backoff tests of the Micron library expect.
- The SqlClient retry interface (src/Micron.SqlClient/Retry/IRetryHandler.cs) declares only `Task Execute(Func<Task>)`. Its callers use members that no SqlClient handler declares: `Execute(Func<T>)`, `ExecuteAsync`, and `RetryHandler.OnException` in DataGateway.cs:153. Each caller is therefore bound to the handler whose members it uses. SqlDbCommandHandler, SqlDataCommand and SqlCommand retry through MicronRetryHandler, the handler in src/Micron/Retry/, which has both Execute and ExecuteAsync. SqlDataGateway and SqlSessionRetryDecorator retry through SqlRetryHandler, the handler in src/Micron.SqlClient/Retry/.
- OnException (SqlDataGateway.DataGateway.OnException): the `RetryHandler.OnException(condition)` it calls exists on no SqlClient type. It is modelled after Micron's RetryConfigurer.OnException<TException>, where a missing condition matches every exception.
- DbCommandHandlerFactory.PipelineAttempts, DbCommandHandlerFactory.ConfiguresOncePerAttempt and DbCommandHandlerPipelineDecorator.Single: a DbCommand is a value and a configurer a pure function from command to command. IDbCommandConfigurer.Configure (src/Micron/IDbCommandConfigurer.cs:6-19) receives the DbCommand object itself, which it may update in place and return, and the pipeline decorator sits inside the retry decorator (src/Micron/DbCommandHandlerFactory.cs:27-29). In the source a configurer that mutates therefore applies again to the command the earlier attempts configured, and its effects compound across retries. The model configures the original command on every attempt, so it does not capture that in-place update or the aliasing of the command across attempts.
- The factory's two-argument exception decorator is modelled as the three-argument one with no pipeline.
- MicronCommandCache is commented out in the source. CreateCommand is modelled up to the text and dictionary it hands to the cache, and the shape-keyed, lock-protected cache is not modelled.
- StringFns.ToSnakeCase is not modelled. The column names of the title table are its results, written as constants.
- char.IsLetterOrDigit is a parameter of ImdbConst.New. Unicode categories are not modelled.
- Convert.ToInt32 is modelled for an optional sign, decimal digits and surrounding white space. Culture-specific signs and thousands separators are not modelled.
- DbType values are the numbers System.Data.DbType gives them; only the members the source names are listed by name.
- DbCommandHandlerRetryDecorator.Attempt, DbCommandHandlerRetryDecorator.AttemptAsync and the MicronCommandHandlerRetryDecorator members: the Micron retry interface (src/Micron/Retry/IRetryHandler.cs:8-14) declares lambdas that take an int attempt argument, but the handler class (src/Micron/Retry/RetryHandler.cs:28-73) declares only the parameterless `Execute(Action)`, `Execute<T>(Func<T>)`, `ExecuteAsync(Func<Task>)` and `ExecuteAsync<T>(Func<Task<T>>)` and calls `function()` with no argument. The source therefore supplies no attempt value; the model passes each lambda the count of earlier attempts, the handler's `tries` before its increment.
- Null arguments that the source dereferences are not modelled: `new ImdbConst(null)` (ImdbConst.New takes a string, so the ArgumentNullException of `value.Any` is absent); `SqlGateway.Gateway.OnException<TException>()` called without its optional filterExpression, which is null and throws NullReferenceException when invoked (src/Micron.SqlClient/SqlGateway.cs:103-105); and DbCommandHandlerExceptionDecorator's logger, which the constructor stores as given (src/Micron/DbCommandHandlerExceptionDecorator.cs:38), so a null logger throws at the first log call, unlike DbCommandHandlerDecorator, which replaces it with the null logger (src/Micron/DbCommandHandlerDecorator.cs:20). The model always has a logger.
- The command-line program, the IMDb download and the dependency-injection wiring are not modelled.

## Findings

| source | as written | input that shows it | evidently intended | confidence | as-written member | corrected member |
|---|---|---|---|---|---|---|
| src/Micron/DbCommandHandlerExceptionDecorator.cs:245 | TransactionAsync hands an async closure to the synchronous Try.To, which only sees the Task, so a failure of the inner transaction passes through unwrapped and unlogged | an inner TransactionAsync that throws | wrapped and logged like every other async operation, through Try.ToAsync | high, not executed | DbCommandHandlerExceptionDecorator.TransactionAsyncLeaksInnerFailure | DbCommandHandlerExceptionDecorator.TransactionAsyncWrapped |
| src/Micron/DbCommandHandlerDecorator.cs:191 | the same synchronous Try.To around the async transaction | an inner TransactionAsync that throws | behaves as Transaction | high, not executed | DbCommandHandlerDecorator.TransactionAsyncLeaksInnerFailure | DbCommandHandlerDecorator.TransactionAsyncWrapped |
| src/Micron/MicronCommandHandlerExceptionDecorator.cs:152 | the same synchronous Try.To around the async transaction | an inner TransactionAsync that throws | wrapped once, like Transaction | high, not executed | MicronCommandHandlerExceptionDecorator.FailureWrappedOnceExceptTransactionAsync | MicronCommandHandlerExceptionDecorator.TransactionAsyncWrapped |
| src/Micron.SqlClient/SessionRetryDecorator.cs:39 | ReadAsync retries a call of its own ReadAsync, not the inner session's | any ReadAsync call | retry the inner session's ReadAsync | high, not executed | SqlSessionRetryDecorator.ReadAsyncNeverReachesInner | SqlSessionRetryDecorator.ReadAsyncReachesInner |
| src/Micron.TestClient/DbModel/TitleDbRow.cs:92-97 | runtime_minutes is declared NOT NULL, while From maps the IMDb null marker to a null RuntimeMinutes | any title line whose runtime is \N | runtime_minutes nullable like start_year and end_year | high, not executed | TitleDbRow.LineWithoutRuntime | TitleDbRow.CorrectedAdmitsParsedRows |
| src/Micron.SqlClient/BackoffInterval.cs:30 | the constructor validates the calculation at 0..MaxRetries-1, while Backoff is called with attempts 1..MaxRetries | a calculation that is out of bounds at attempt MaxRetries only: 0 there gives a 0 ms backoff; -5 makes Task.Delay throw and end the retry run, as SqlRootRetryHandler.RefusedLastDelay shows | validate the attempts Backoff receives | high, not executed | SqlRootBackoffInterval.UnvalidatedLastAttempt | SqlRootBackoffInterval.ValidatedBackoffWithinBounds |
| src/Micron/MicronCommandHandler.cs:121-126 | the commands are a lazy Select, so disposing them enumerates it again and disposes fresh commands, never the executed ones | any non-empty Transaction | dispose the commands that were executed | medium, not executed | MicronCommandHandler.ExecutedCommandsNeverDisposed | MicronCommandHandler.TransactionDisposingExecuted |
| src/Micron.SqlClient/DataGateway.cs:104-109 | the loop yields Current even after MoveNextAsync has returned false, so after the last row it yields one item more | a query of n rows, which yields n + 1 items | yield exactly the n mapped rows | high, not executed | SqlDataGateway.QueryAsWritten | SqlDataGateway.Query |
