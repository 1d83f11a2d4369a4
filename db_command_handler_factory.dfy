// DbCommandHandlerFactory of Micron: Build stacks the decorators around a new
// DbCommandHandler, innermost first: the pipeline decorator with the factory's
// configurer, the retry decorator, the logging decorator and the exception
// decorator. Build passes the exception decorator the logger alone, where its
// constructor also takes a configuration pipeline; the model gives it none.
// The built handler's Execute is modelled; the other operations compose the
// same way.
module DbCommandHandlerFactory {
  import opened Common
  import R = MicronRetryHandler
  import P = DbCommandHandlerPipelineDecorator
  import Rt = DbCommandHandlerRetryDecorator
  import Lg = DbCommandHandlerLoggingDecorator
  import E = DbCommandHandlerExceptionDecorator

  /** The factory's retry handler and command configurer. */
  datatype Factory = Factory(retryHandler: R.RetryHandler, configurer: Configurer)

  /** The constructor: a missing configurer becomes the identity pipeline. */
  function NewFactory(retryHandler: R.RetryHandler, configurer: Option<Configurer>): (f: Factory)
    ensures f.retryHandler == retryHandler
    ensures configurer.Some? ==> f.configurer == configurer.value
    ensures configurer.None? ==> forall c :: f.configurer(c) == Ok(c)
  {
    Factory(retryHandler, if configurer.Some? then configurer.value else P.Identity())
  }

  /** What DbCommandHandler.Execute does on attempt a, as a handler of commands;
      `base(a, c)` is what it does with command c on that attempt. */
  function OnAttempt(base: (nat, DbCommand) -> Traced<int>, a: nat): DbCommand -> Traced<int>
  {
    c => base(a, c)
  }

  /** The inner call the retry decorator makes on each attempt: the pipeline
      decorator, which configures the command and runs it. */
  function PipelineAttempts(f: Factory, base: (nat, DbCommand) -> Traced<int>, command: DbCommand): nat -> Traced<int>
  {
    (a: nat) => P.Single(f.configurer, OnAttempt(base, a), command)
  }

  /** The retry decorator over the pipeline decorator. */
  function Retrying(f: Factory, base: (nat, DbCommand) -> Traced<int>): DbCommand -> Traced<int>
  {
    c => Rt.Retried(f.retryHandler, PipelineAttempts(f, base, c))
  }

  /** The logging decorator over the retry decorator. */
  function Logging(f: Factory, base: (nat, DbCommand) -> Traced<int>): DbCommand -> Traced<int>
  {
    c => Lg.Execute(Retrying(f, base), c)
  }

  /** Build().Execute(command): the exception decorator, without a pipeline,
      over the logging decorator. The built handler returns what the retry
      decorator made of the configured attempts, a failure wrapped exactly
      once; the layers above the retry decorator add log entries only. */
  function Execute(f: Factory, base: (nat, DbCommand) -> Traced<int>, command: DbCommand): (r: Traced<int>)
    ensures var retried := Rt.Retried(f.retryHandler, PipelineAttempts(f, base, command));
      (retried.0.Ok? ==> r.0 == retried.0)
      && (retried.0.Fail? ==> r.0 == Fail(Wrapped(retried.0.error)))
      && Calls(r.1) == Calls(retried.1)
  {
    assert Logging(f, base)(command) == Lg.Execute(Retrying(f, base), command);
    E.Execute(None, Logging(f, base), command)
  }

  /** The configurer runs once per attempt of the retry handler: with a
      DbCommandHandler that configures nothing itself, the built handler's
      Execute records as many configurer calls as the retry handler made
      attempts. */
  lemma ConfiguresOncePerAttempt(f: Factory, base: (nat, DbCommand) -> Traced<int>, command: DbCommand)
    requires forall a: nat, c :: Filter(base(a, c).1, IsConfigured) == []
    ensures |Filter(Execute(f, base, command).1, IsConfigured)|
            == R.Attempts(f.retryHandler, Rt.Outcomes(PipelineAttempts(f, base, command)), 0).invocations
  {
    var attempts := PipelineAttempts(f, base, command);
    var n := R.Attempts(f.retryHandler, Rt.Outcomes(attempts), 0).invocations;
    var r := Execute(f, base, command);
    Rt.RetriedIsInnerRetried(f.retryHandler, attempts);
    FilterFilter(r.1, IsCall, IsConfigured);
    FilterFilter(Rt.Trace(attempts, n), IsCall, IsConfigured);
    forall a: nat
      ensures |Filter(attempts(a).1, IsConfigured)| == 1
    {
      P.SingleConfiguresOnce(f.configurer, OnAttempt(base, a), command);
    }
    OnePerAttempt(attempts, n);
  }

  lemma {:induction false} OnePerAttempt(attempts: nat -> Traced<int>, m: nat)
    requires forall a: nat :: |Filter(attempts(a).1, IsConfigured)| == 1
    ensures |Filter(Rt.Trace(attempts, m), IsConfigured)| == m
  {
    if m > 0 {
      OnePerAttempt(attempts, m - 1);
      FilterAppend(Rt.Trace(attempts, m - 1), attempts(m - 1).1, IsConfigured);
    }
  }
}
