// ConfigureRetries of Micron.SqlClient.Retry: a fluent configurer that
// assigns the Condition, RetryTimes and BackoffInterval of one shared
// ExceptionRetryConfiguration, step by step.
module SqlExceptionRetryConfiguration {
  import opened Common
  import B = SqlBackoffInterval
  import T = SqlRetryTimes

  class ExceptionRetryConfiguration {
    /** None while no Matching call has stored a condition (the property is null). */
    var condition: Option<Condition>
    var retryTimes: T.RetryTimes
    var backoffInterval: B.BackoffInterval

    constructor ()
      ensures condition == None && retryTimes == T.RetryTimes(0) && backoffInterval == B.Unset
    {
      condition := None;
      retryTimes := T.RetryTimes(0);
      backoffInterval := B.Unset;
    }
  }

  /** calls[i] is the first calculation Interval refuses. */
  predicate FirstInvalid(calls: seq<B.IntervalCalculation>, i: int)
  {
    0 <= i < |calls| && B.Validate(calls[i]).Fail? && forall j :: 0 <= j < i ==> B.Validate(calls[j]).Ok?
  }

  class ExceptionRetryConfigurer {
    const configuration: ExceptionRetryConfiguration

    constructor (configuration: ExceptionRetryConfiguration)
      ensures this.configuration == configuration
    {
      this.configuration := configuration;
    }

    /** Matching(condition): stores the condition unchanged, replacing any earlier one. */
    method Matching(c: Condition) returns (next: ExceptionRetryConfigurer)
      modifies configuration
      ensures next == this
      ensures configuration.condition == Some(c)
      ensures configuration.retryTimes == old(configuration.retryTimes)
      ensures configuration.backoffInterval == old(configuration.backoffInterval)
    {
      configuration.condition := Some(c);
      next := this;
    }

    /** Matching<TException>(condition): true iff the exception is a TException
        (the test `isT`) and the condition holds of it. */
    method MatchingOf(isT: Exn -> bool, c: Condition) returns (next: ExceptionRetryConfigurer)
      modifies configuration
      ensures next == this
      ensures configuration.condition.Some?
      ensures forall e :: configuration.condition.value(e) == (isT(e) && c(e))
      ensures configuration.retryTimes == old(configuration.retryTimes)
      ensures configuration.backoffInterval == old(configuration.backoffInterval)
    {
      configuration.condition := Some(e => if isT(e) then c(e) else false);
      next := this;
    }

    /** Retry(times, backoff): stores both and returns the configuration itself. */
    method Retry(times: T.RetryTimes, backoff: B.BackoffInterval) returns (result: ExceptionRetryConfiguration)
      modifies configuration
      ensures result == configuration
      ensures configuration.retryTimes == times && configuration.backoffInterval == backoff
      ensures configuration.condition == old(configuration.condition)
    {
      configuration.retryTimes := times;
      configuration.backoffInterval := backoff;
      result := configuration;
    }

    /** Interval(calculation): the implicit conversion validates the calculation
        and throws for an invalid one, leaving the configuration unchanged. */
    method Interval(c: B.IntervalCalculation) returns (r: Result<ExceptionRetryConfiguration>)
      modifies configuration
      ensures B.Validate(c).Ok? ==> r == Ok(configuration) && configuration.backoffInterval == B.Interval(c)
      ensures B.Validate(c).Fail? ==> r == Fail(B.Validate(c).error)
                                      && configuration.backoffInterval == old(configuration.backoffInterval)
      ensures configuration.retryTimes == old(configuration.retryTimes)
      ensures configuration.condition == old(configuration.condition)
    {
      var converted := B.New(c);
      if converted.Fail? {
        return Fail(converted.error);
      }
      configuration.backoffInterval := converted.value;
      r := Ok(configuration);
    }

    /** Retry(times, configureBackoff): `calls` are the calculations the callback
        hands to Interval, in order. The source stores RetryTimes before running
        the callback; the callback writes only the interval, so running it first
        leaves the same state. */
    method RetryConfigured(times: T.RetryTimes, calls: seq<B.IntervalCalculation>)
        returns (r: Result<ExceptionRetryConfiguration>)
      modifies configuration
      ensures configuration.retryTimes == times
      ensures configuration.condition == old(configuration.condition)
      ensures r.Ok? ==> r.value == configuration && forall i :: 0 <= i < |calls| ==> B.Validate(calls[i]).Ok?
      ensures r.Ok? ==> configuration.backoffInterval
                        == (if calls == [] then old(configuration.backoffInterval) else B.Interval(calls[|calls| - 1]))
      ensures r.Fail? ==> exists i :: FirstInvalid(calls, i) && r.error == B.Validate(calls[i]).error
                                   && configuration.backoffInterval
                                      == (if i == 0 then old(configuration.backoffInterval) else B.Interval(calls[i - 1]))
    {
      var applied := IntervalEach(calls);
      ghost var interval := configuration.backoffInterval;
      configuration.retryTimes := times;
      if applied.Fail? {
        assert configuration.backoffInterval == interval;
        return Fail(applied.error);
      }
      r := Ok(configuration);
    }

    /** The configureBackoff callback: Interval for each calculation in turn,
        stopping at the first that throws. */
    method IntervalEach(calls: seq<B.IntervalCalculation>) returns (r: Result<Unit>)
      modifies configuration
      ensures configuration.retryTimes == old(configuration.retryTimes)
      ensures configuration.condition == old(configuration.condition)
      ensures r.Ok? ==> forall i :: 0 <= i < |calls| ==> B.Validate(calls[i]).Ok?
      ensures r.Ok? ==> configuration.backoffInterval
                        == (if calls == [] then old(configuration.backoffInterval) else B.Interval(calls[|calls| - 1]))
      ensures r.Fail? ==> exists i :: FirstInvalid(calls, i) && r.error == B.Validate(calls[i]).error
                                   && configuration.backoffInterval
                                      == (if i == 0 then old(configuration.backoffInterval) else B.Interval(calls[i - 1]))
    {
      var i := 0;
      while i < |calls|
        invariant 0 <= i <= |calls|
        invariant configuration.retryTimes == old(configuration.retryTimes)
        invariant configuration.condition == old(configuration.condition)
        invariant forall j :: 0 <= j < i ==> B.Validate(calls[j]).Ok?
        invariant configuration.backoffInterval
                  == (if i == 0 then old(configuration.backoffInterval) else B.Interval(calls[i - 1]))
      {
        var applied := Interval(calls[i]);
        if applied.Fail? {
          assert FirstInvalid(calls, i) && applied.error == B.Validate(calls[i]).error;
          assert exists k :: FirstInvalid(calls, k) && applied.error == B.Validate(calls[k]).error
                               && configuration.backoffInterval
                                  == (if k == 0 then old(configuration.backoffInterval) else B.Interval(calls[k - 1]));
          return Fail(applied.error);
        }
        i := i + 1;
      }
      r := Ok(Unit);
    }
  }

  /** ConfigureRetries.OnException() and OnException<TException>(): each call
      starts from a fresh, unconfigured configuration; the type argument is not used. */
  method OnException() returns (configurer: ExceptionRetryConfigurer)
    ensures fresh(configurer) && fresh(configurer.configuration)
    ensures configurer.configuration.condition == None
    ensures configurer.configuration.retryTimes == T.RetryTimes(0)
    ensures configurer.configuration.backoffInterval == B.Unset
  {
    var configuration := new ExceptionRetryConfiguration();
    configurer := new ExceptionRetryConfigurer(configuration);
  }
}
