// The Micron.Retry RetryHandler: re-invokes an operation while its failures
// match one of the handler's conditions, backing off between attempts, and the
// fluent RetryConfigurer that builds such a handler.
module MicronRetryHandler {
  import opened Common
  import B = MicronBackoffInterval

  /** The handler's readonly state. `retryCount` is RetryTimes.RetryCount. */
  datatype RetryHandler = RetryHandler(retryCount: int, backoff: B.BackoffInterval, conditions: seq<Condition>)

  /** The conditions-only constructor: MaxRetries retries, the minimum backoff,
      and no conditions when none are given. */
  function WithConditions(conditions: Option<seq<Condition>>): (h: RetryHandler)
    ensures h.retryCount == B.MaxRetries
    ensures h.backoff.Interval? && forall a :: h.backoff.calculation(a) == B.MinBackoffMilliseconds
    ensures conditions.None? ==> h.conditions == []
    ensures conditions.Some? ==> h.conditions == conditions.value
  {
    var backoff := B.FromMilliseconds(B.MinBackoffMilliseconds);
    RetryHandler(B.MaxRetries, backoff.value, if conditions.None? then [] else conditions.value)
  }

  /** The backoff between two invocations: Backoff in Execute, BackoffAsync
      with the default (never cancelled) token in ExecuteAsync. */
  function Pause(h: RetryHandler, attempt: int, async: bool): Result<int>
  {
    if async then B.BackoffAsync(h.backoff, attempt, false) else B.Backoff(h.backoff, attempt)
  }

  /** The run of Execute (or, with `async`, of ExecuteAsync) from the point
      where `tries` invocations have failed; `op(i)` is the outcome of the
      operation's i-th invocation (counting from 0). */
  function Attempts<T>(h: RetryHandler, op: nat -> Result<T>, tries: nat, async: bool := false): Run<T>
    decreases h.retryCount - tries
  {
    match op(tries)
    case Ok(v) => Run(Ok(v), tries + 1, [])
    case Fail(e) =>
      if tries > h.retryCount || !AnyMatches(h.conditions, e) then Run(Fail(e), tries + 1, [])
      else match Pause(h, tries + 1, async)
        case Fail(failure) => Run(Fail(failure), tries + 1, [tries + 1])
        case Ok(_) =>
          var rest := Attempts(h, op, tries + 1, async);
          Run(rest.result, rest.invocations, [tries + 1] + rest.backoffs)
  }

  /** Execute<T>(function): the do/while loop with its post-incremented counter. */
  method Execute<T>(h: RetryHandler, op: nat -> Result<T>) returns (r: Result<T>, invocations: nat, backoffs: seq<int>)
    ensures Run(r, invocations, backoffs) == Attempts(h, op, 0)
  {
    var tries: nat := 0;
    backoffs := [];
    while true
      invariant tries == 0 || tries <= h.retryCount + 1
      invariant Resumes(h, op, tries, backoffs, false)
      decreases h.retryCount - tries
    {
      var outcome := op(tries);
      if outcome.Ok? {
        StopsAt(h, op, tries, backoffs, false);
        return outcome, tries + 1, backoffs;
      }
      var previous := tries;
      tries := tries + 1;
      if previous > h.retryCount {
        StopsAt(h, op, previous, backoffs, false);
        return outcome, tries, backoffs;
      }
      if !AnyMatches(h.conditions, outcome.error) {
        StopsAt(h, op, previous, backoffs, false);
        return outcome, tries, backoffs;
      }
      ghost var before := backoffs;
      backoffs := backoffs + [tries];
      var slept := B.Backoff(h.backoff, tries);
      if slept.Fail? {
        StopsAtBackoff(h, op, previous, before, false);
        return Fail(slept.error), tries, backoffs;
      }
      ResumesAfterBackoff(h, op, previous, before, false);
    }
  }

  /** ExecuteAsync<T>(function): the same loop awaiting BackoffAsync with the default token. */
  method ExecuteAsync<T>(h: RetryHandler, op: nat -> Result<T>) returns (r: Result<T>, invocations: nat, backoffs: seq<int>)
    ensures Run(r, invocations, backoffs) == Attempts(h, op, 0, true)
  {
    var tries: nat := 0;
    backoffs := [];
    while true
      invariant tries == 0 || tries <= h.retryCount + 1
      invariant Resumes(h, op, tries, backoffs, true)
      decreases h.retryCount - tries
    {
      var outcome := op(tries);
      if outcome.Ok? {
        StopsAt(h, op, tries, backoffs, true);
        return outcome, tries + 1, backoffs;
      }
      var previous := tries;
      tries := tries + 1;
      if previous > h.retryCount || !AnyMatches(h.conditions, outcome.error) {
        StopsAt(h, op, previous, backoffs, true);
        return outcome, tries, backoffs;
      }
      ghost var before := backoffs;
      backoffs := backoffs + [tries];
      var delayed := B.BackoffAsync(h.backoff, tries, false);
      if delayed.Fail? {
        StopsAtBackoff(h, op, previous, before, true);
        return Fail(delayed.error), tries, backoffs;
      }
      ResumesAfterBackoff(h, op, previous, before, true);
    }
  }

  /** The state of the loop after `tries` failed invocations and the
      backoffs waited so far: the rest of the run completes the whole run. */
  ghost predicate Resumes<T>(h: RetryHandler, op: nat -> Result<T>, tries: nat, backoffs: seq<int>, async: bool)
  {
    var rest := Attempts(h, op, tries, async);
    Attempts(h, op, 0, async) == Run(rest.result, rest.invocations, backoffs + rest.backoffs)
  }

  /** A retried failure moves the loop on by one invocation and one backoff. */
  lemma ResumesAfterBackoff<T>(h: RetryHandler, op: nat -> Result<T>, tries: nat, backoffs: seq<int>, async: bool)
    requires Resumes(h, op, tries, backoffs, async)
    requires op(tries).Fail? && !(tries > h.retryCount) && AnyMatches(h.conditions, op(tries).error)
    requires Pause(h, tries + 1, async).Ok?
    ensures Resumes(h, op, tries + 1, backoffs + [tries + 1], async)
  {
    var rest := Attempts(h, op, tries + 1, async);
    assert Attempts(h, op, tries, async) == Run(rest.result, rest.invocations, [tries + 1] + rest.backoffs);
    assert backoffs + ([tries + 1] + rest.backoffs) == (backoffs + [tries + 1]) + rest.backoffs;
  }

  /** The loop ends with the invocation's own outcome: it succeeded, or its
      failure is not retried. */
  lemma StopsAt<T>(h: RetryHandler, op: nat -> Result<T>, tries: nat, backoffs: seq<int>, async: bool)
    requires Resumes(h, op, tries, backoffs, async)
    requires op(tries).Ok? || tries > h.retryCount || !AnyMatches(h.conditions, op(tries).error)
    ensures Attempts(h, op, 0, async) == Run(op(tries), tries + 1, backoffs)
  {
    assert backoffs + [] == backoffs;
  }

  /** The loop ends with the exception of the backoff after a retried failure. */
  lemma StopsAtBackoff<T>(h: RetryHandler, op: nat -> Result<T>, tries: nat, backoffs: seq<int>, async: bool)
    requires Resumes(h, op, tries, backoffs, async)
    requires op(tries).Fail? && !(tries > h.retryCount) && AnyMatches(h.conditions, op(tries).error)
    requires Pause(h, tries + 1, async).Fail?
    ensures Attempts(h, op, 0, async) == Run(Fail(Pause(h, tries + 1, async).error), tries + 1, backoffs + [tries + 1])
  {
  }

  /** An interval the struct's constructors can make: default(BackoffInterval),
      or one whose calculation passed validation. */
  predicate Constructed(b: B.BackoffInterval)
  {
    b.Unset? || B.Validate(b.calculation).Ok?
  }

  /** For every interval the constructors can make, ExecuteAsync has the run of
      Execute; for any other calculation the two differ at most in the parameter
      name of a refused delay. */
  lemma {:induction false} AsyncRunsAgree<T>(h: RetryHandler, op: nat -> Result<T>, tries: nat)
    requires Constructed(h.backoff)
    ensures Attempts(h, op, tries, true) == Attempts(h, op, tries)
    decreases h.retryCount - tries
  {
    match op(tries)
    case Ok(v) =>
    case Fail(e) =>
      if tries > h.retryCount || !AnyMatches(h.conditions, e) {
      } else {
        if h.backoff.Interval? {
          B.ValidatedBackoffAsyncAgrees(h.backoff.calculation, tries + 1);
        }
        assert Pause(h, tries + 1, true) == Pause(h, tries + 1, false);
        if Pause(h, tries + 1, false).Ok? {
          AsyncRunsAgree(h, op, tries + 1);
        }
      }
  }

  /** Every run backs off with consecutive attempt numbers; it ends with the
      outcome of its last invocation, or with the exception of the backoff that
      followed that invocation. */
  lemma {:induction false} AttemptsShape<T>(h: RetryHandler, op: nat -> Result<T>, tries: nat)
    ensures var run := Attempts(h, op, tries);
      run.invocations > tries
      && (forall i :: 0 <= i < |run.backoffs| ==> run.backoffs[i] == tries + 1 + i)
      && ((run.result == op(run.invocations - 1) && |run.backoffs| == run.invocations - 1 - tries)
          || (B.Backoff(h.backoff, run.invocations).Fail?
              && run.result == Fail(B.Backoff(h.backoff, run.invocations).error)
              && |run.backoffs| == run.invocations - tries))
    decreases h.retryCount - tries
  {
    match op(tries)
    case Ok(v) =>
    case Fail(e) =>
      if tries > h.retryCount || !AnyMatches(h.conditions, e) {
      } else if Pause(h, tries + 1, false).Ok? {
        AttemptsShape(h, op, tries + 1);
      }
  }

  /** The operation is invoked at most RetryCount + 2 times, and never more than
      MaxRetries + 1 times, because the backoff rejects attempts past MaxRetries. */
  lemma {:induction false} AttemptsBounded<T>(h: RetryHandler, op: nat -> Result<T>, tries: nat)
    requires tries <= B.MaxRetries
    ensures Attempts(h, op, tries).invocations <= B.MaxRetries + 1
    ensures tries <= h.retryCount + 1 ==> Attempts(h, op, tries).invocations <= h.retryCount + 2
    ensures tries > h.retryCount ==> Attempts(h, op, tries).invocations == tries + 1
    decreases h.retryCount - tries
  {
    match op(tries)
    case Ok(v) =>
    case Fail(e) =>
      if tries > h.retryCount || !AnyMatches(h.conditions, e) {
      } else if Pause(h, tries + 1, false).Ok? {
        AttemptsBounded(h, op, tries + 1);
      }
  }

  /** A failure no condition matches is rethrown unchanged, without a backoff. */
  lemma UnmatchedRethrown<T>(h: RetryHandler, op: nat -> Result<T>)
    requires op(0).Fail? && !AnyMatches(h.conditions, op(0).error)
    ensures Attempts(h, op, 0) == Run(op(0), 1, [])
  {
  }

  /** The run depends only on the outcomes of the invocations: two operations
      with the same outcomes are retried alike, by Execute and by ExecuteAsync. */
  lemma {:induction false} AttemptsAgree<T>(h: RetryHandler, op1: nat -> Result<T>,
      op2: nat -> Result<T>, tries: nat, async: bool := false)
    requires forall a :: a >= tries ==> op1(a) == op2(a)
    ensures Attempts(h, op1, tries, async) == Attempts(h, op2, tries, async)
    decreases h.retryCount - tries
  {
    match op1(tries)
    case Ok(v) =>
    case Fail(e) =>
      if tries > h.retryCount || !AnyMatches(h.conditions, e) {
      } else if Pause(h, tries + 1, async).Ok? {
        AttemptsAgree(h, op1, op2, tries + 1, async);
      }
  }

  /** An operation whose first k invocations fail with matching exceptions and
      whose next one succeeds returns that value after k backoffs 1..k, provided
      the retry count and MaxRetries allow k retries. */
  lemma {:induction false} SucceedsAfterRetries<T>(h: RetryHandler, op: nat -> Result<T>,
      compute: B.IntervalCalculation, k: nat, tries: nat)
    requires B.Validate(compute).Ok? && h.backoff == B.Interval(compute)
    requires tries <= k <= h.retryCount + 1 && k <= B.MaxRetries
    requires forall i :: tries <= i < k ==> op(i).Fail? && AnyMatches(h.conditions, op(i).error)
    requires op(k).Ok?
    ensures Attempts(h, op, tries) == Run(op(k), k + 1, Range(tries + 1, k - tries))
    decreases k - tries
  {
    if tries < k {
      B.BackoffWithinBounds(compute, tries + 1);
      SucceedsAfterRetries(h, op, compute, k, tries + 1);
      assert Range(tries + 1, k - tries) == [tries + 1] + Range(tries + 2, k - tries - 1);
    }
  }

  /** An operation that always fails with a matching exception is invoked
      RetryCount + 2 times, with backoffs 1 .. RetryCount + 1, and its exception
      is rethrown, while RetryCount + 1 stays within MaxRetries. */
  lemma {:induction false} PersistentFailure<T>(h: RetryHandler, op: nat -> Result<T>,
      compute: B.IntervalCalculation, e: Exn, tries: nat)
    requires B.Validate(compute).Ok? && h.backoff == B.Interval(compute)
    requires 0 <= h.retryCount < B.MaxRetries && tries <= h.retryCount + 1
    requires forall i :: op(i) == Fail(e)
    requires AnyMatches(h.conditions, e)
    ensures Attempts(h, op, tries) == Run(Fail(e), h.retryCount + 2, Range(tries + 1, h.retryCount + 1 - tries))
    decreases h.retryCount - tries
  {
    if tries <= h.retryCount {
      B.BackoffWithinBounds(compute, tries + 1);
      PersistentFailure(h, op, compute, e, tries + 1);
      assert Range(tries + 1, h.retryCount + 1 - tries) == [tries + 1] + Range(tries + 2, h.retryCount - tries);
    }
  }

  /** With RetryCount = MaxRetries, an operation that always fails with a
      matching exception reaches Backoff(MaxRetries + 1), whose
      ArgumentOutOfRangeException replaces the operation's own exception. */
  lemma {:induction false} PersistentFailureAtMaxRetries<T>(h: RetryHandler, op: nat -> Result<T>,
      compute: B.IntervalCalculation, e: Exn, tries: nat)
    requires B.Validate(compute).Ok? && h.backoff == B.Interval(compute)
    requires h.retryCount == B.MaxRetries && tries <= B.MaxRetries
    requires forall i :: op(i) == Fail(e)
    requires AnyMatches(h.conditions, e)
    ensures Attempts(h, op, tries)
         == Run(Fail(ArgumentOutOfRange("attempt", B.MaxRetries + 1)), B.MaxRetries + 1,
             Range(tries + 1, B.MaxRetries + 1 - tries))
    decreases h.retryCount - tries
  {
    if tries < B.MaxRetries {
      B.BackoffWithinBounds(compute, tries + 1);
      PersistentFailureAtMaxRetries(h, op, compute, e, tries + 1);
      assert Range(tries + 1, B.MaxRetries + 1 - tries) == [tries + 1] + Range(tries + 2, B.MaxRetries - tries);
    }
  }

  /** calls[i] is the first calculation Interval refuses. */
  predicate FirstInvalid(calls: seq<B.IntervalCalculation>, i: int)
  {
    0 <= i < |calls| && B.Validate(calls[i]).Fail? && forall j :: 0 <= j < i ==> B.Validate(calls[j]).Ok?
  }

  /** The fluent builder (RetryConfigurer with its ExceptionRetryConfiguration):
      each call overwrites the configuration's fields. */
  class RetryConfigurer {
    var condition: Option<Condition>
    /** RetryTimes.RetryCount; default(RetryTimes) counts 0 */
    var retryCount: int
    var backoff: B.BackoffInterval

    constructor ()
      ensures condition == None && retryCount == 0 && backoff == B.Unset
    {
      condition := None;
      retryCount := 0;
      backoff := B.Unset;
    }

    /** OnException<TException>(condition): `isT` is the `ex is TException` test.
        Without a condition every exception matches, whatever its type. */
    method OnException(isT: Exn -> bool, c: Option<Exn -> bool>)
      modifies this
      ensures condition.Some?
      ensures c.None? ==> forall e :: condition.value(e)
      ensures c.Some? ==> forall e :: condition.value(e) == (isT(e) && c.value(e))
      ensures retryCount == old(retryCount) && backoff == old(backoff)
    {
      if c.None? {
        condition := Some(_ => true);
      } else {
        var typed := c.value;
        condition := Some(e => isT(e) && typed(e));
      }
    }

    /** Retry(times, backoff): stores both and builds a handler with the single
        condition, which rejects every exception when none was configured. */
    method Retry(times: int, interval: B.BackoffInterval) returns (h: RetryHandler)
      modifies this
      ensures retryCount == times && backoff == interval && condition == old(condition)
      ensures h.retryCount == times && h.backoff == interval && |h.conditions| == 1
      ensures forall e :: h.conditions[0](e) == (condition.Some? && condition.value(e))
    {
      retryCount := times;
      backoff := interval;
      h := Build();
    }

    /** Interval(calculation): the implicit conversion validates the calculation;
        an invalid one throws and leaves the configuration as it was. */
    method Interval(compute: B.IntervalCalculation) returns (r: Result<Unit>)
      modifies this
      ensures B.Validate(compute).Ok? ==> r == Ok(Unit) && backoff == B.Interval(compute)
      ensures B.Validate(compute).Fail? ==> r == Fail(B.Validate(compute).error) && backoff == old(backoff)
      ensures retryCount == old(retryCount) && condition == old(condition)
    {
      var converted := B.New(compute);
      B.ValidateAccepts(compute);
      if converted.Fail? {
        return Fail(converted.error);
      }
      backoff := converted.value;
      r := Ok(Unit);
    }

    /** Retry(times, configureBackoff): `calls` are the calculations the callback
        passes to Interval, in order; the first invalid one escapes from Retry.
        The source stores RetryTimes before running the callback; the callback
        writes only the interval, so running it first leaves the same state. */
    method RetryConfigured(times: int, calls: seq<B.IntervalCalculation>) returns (r: Result<RetryHandler>)
      modifies this
      ensures retryCount == times && condition == old(condition)
      ensures r.Ok? ==> forall i :: 0 <= i < |calls| ==> B.Validate(calls[i]).Ok?
      ensures r.Ok? ==> backoff == (if calls == [] then old(backoff) else B.Interval(calls[|calls| - 1]))
      ensures r.Ok? ==> r.value.retryCount == times && r.value.backoff == backoff && |r.value.conditions| == 1
      ensures r.Ok? ==> forall e :: r.value.conditions[0](e) == (condition.Some? && condition.value(e))
      ensures r.Fail? ==> exists i :: FirstInvalid(calls, i) && r.error == B.Validate(calls[i]).error
                                   && backoff == (if i == 0 then old(backoff) else B.Interval(calls[i - 1]))
    {
      var applied := IntervalEach(calls);
      retryCount := times;
      if applied.Fail? {
        return Fail(applied.error);
      }
      var h := Build();
      r := Ok(h);
    }

    /** The configureBackoff callback: Interval for each calculation in turn,
        stopping at the first that throws. */
    method IntervalEach(calls: seq<B.IntervalCalculation>) returns (r: Result<Unit>)
      modifies this
      ensures retryCount == old(retryCount) && condition == old(condition)
      ensures r.Ok? ==> forall i :: 0 <= i < |calls| ==> B.Validate(calls[i]).Ok?
      ensures r.Ok? ==> backoff == (if calls == [] then old(backoff) else B.Interval(calls[|calls| - 1]))
      ensures r.Fail? ==> exists i :: FirstInvalid(calls, i) && r.error == B.Validate(calls[i]).error
                                   && backoff == (if i == 0 then old(backoff) else B.Interval(calls[i - 1]))
    {
      var i := 0;
      while i < |calls|
        invariant 0 <= i <= |calls|
        invariant retryCount == old(retryCount) && condition == old(condition)
        invariant forall j :: 0 <= j < i ==> B.Validate(calls[j]).Ok?
        invariant backoff == (if i == 0 then old(backoff) else B.Interval(calls[i - 1]))
      {
        var applied := Interval(calls[i]);
        if applied.Fail? {
          assert FirstInvalid(calls, i);
          return Fail(applied.error);
        }
        i := i + 1;
      }
      r := Ok(Unit);
    }

    method Build() returns (h: RetryHandler)
      ensures h.retryCount == retryCount && h.backoff == backoff && |h.conditions| == 1
      ensures forall e :: h.conditions[0](e) == (condition.Some? && condition.value(e))
    {
      var fallback: Condition := _ => false;
      var chosen := if condition.Some? then condition.value else fallback;
      h := RetryHandler(retryCount, backoff, [chosen]);
    }
  }

  /** Catch<TException>(condition): a fresh configurer with the typed condition. */
  method Catch(isT: Exn -> bool, c: Option<Exn -> bool>) returns (configurer: RetryConfigurer)
    ensures fresh(configurer)
    ensures configurer.condition.Some? && configurer.retryCount == 0 && configurer.backoff == B.Unset
    ensures c.None? ==> forall e :: configurer.condition.value(e)
    ensures c.Some? ==> forall e :: configurer.condition.value(e) == (isT(e) && c.value(e))
  {
    configurer := new RetryConfigurer();
    configurer.OnException(isT, c);
  }
}
