// RetryHandler of Micron.SqlClient, in its two revisions: Retry/RetryHandler.cs,
// whose counter test is `tries++ > RetryCount` (post-increment), and the earlier
// RetryHandler.cs at the project root, whose test is `++tries > RetryCount`
// (pre-increment). Execute(Func<Task>) is modelled for any result type; the
// source's void action is the case T = Unit.
module SqlRetryHandler {
  import opened Common
  import B = SqlBackoffInterval
  import R = SqlRootRetryTimes

  datatype RetryHandler = RetryHandler(retryCount: int, backoff: B.BackoffInterval, conditions: seq<Condition>)

  /** The conditions-only constructor: MaxRetries retries and the minimum backoff
      (the implicit int conversion of MinBackoffMilliseconds, here with delegate identity 0). */
  function WithConditions(conditions: seq<Condition>): (h: RetryHandler)
    ensures h.retryCount == R.MaxRetries && h.conditions == conditions
    ensures h.backoff.Interval? && forall a :: h.backoff.calculation.compute(a) == B.MinBackoffMilliseconds
  {
    RetryHandler(R.MaxRetries, B.FromMilliseconds(0, B.MinBackoffMilliseconds).value, conditions)
  }

  /** The run of Execute from the point where `tries` invocations have failed. */
  function Attempts<T>(h: RetryHandler, op: nat -> Result<T>, tries: nat): Run<T>
    decreases h.retryCount - tries
  {
    match op(tries)
    case Ok(v) => Run(Ok(v), tries + 1, [])
    case Fail(e) =>
      if tries > h.retryCount || !AnyMatches(h.conditions, e) then Run(Fail(e), tries + 1, [])
      else match B.Backoff(h.backoff, tries + 1)
        case Fail(failure) => Run(Fail(failure), tries + 1, [tries + 1])
        case Ok(_) =>
          var rest := Attempts(h, op, tries + 1);
          Run(rest.result, rest.invocations, [tries + 1] + rest.backoffs)
  }

  /** Execute(action): the do/while loop, leaving by `break` on success. */
  method Execute<T>(h: RetryHandler, op: nat -> Result<T>) returns (r: Result<T>, invocations: nat, backoffs: seq<int>)
    ensures Run(r, invocations, backoffs) == Attempts(h, op, 0)
  {
    var tries: nat := 0;
    backoffs := [];
    while true
      invariant tries == 0 || tries <= h.retryCount + 1
      invariant Resumes(h, op, tries, backoffs)
      decreases h.retryCount - tries
    {
      var outcome := op(tries);
      if outcome.Ok? {
        StopsAt(h, op, tries, backoffs);
        r, invocations := outcome, tries + 1;
        break;
      }
      var previous := tries;
      tries := tries + 1;
      if previous > h.retryCount || !AnyMatches(h.conditions, outcome.error) {
        StopsAt(h, op, previous, backoffs);
        return outcome, tries, backoffs;
      }
      ghost var before := backoffs;
      backoffs := backoffs + [tries];
      var delayed := B.Backoff(h.backoff, tries);
      if delayed.Fail? {
        StopsAtBackoff(h, op, previous, before);
        return Fail(delayed.error), tries, backoffs;
      }
      ResumesAfterBackoff(h, op, previous, before);
    }
  }

  /** The state of Execute's loop after `tries` failed invocations and the
      backoffs waited so far: the rest of the run completes the whole run. */
  ghost predicate Resumes<T>(h: RetryHandler, op: nat -> Result<T>, tries: nat, backoffs: seq<int>)
  {
    var rest := Attempts(h, op, tries);
    Attempts(h, op, 0) == Run(rest.result, rest.invocations, backoffs + rest.backoffs)
  }

  /** A retried failure moves the loop on by one invocation and one backoff. */
  lemma ResumesAfterBackoff<T>(h: RetryHandler, op: nat -> Result<T>, tries: nat, backoffs: seq<int>)
    requires Resumes(h, op, tries, backoffs)
    requires op(tries).Fail? && !(tries > h.retryCount) && AnyMatches(h.conditions, op(tries).error)
    requires B.Backoff(h.backoff, tries + 1).Ok?
    ensures Resumes(h, op, tries + 1, backoffs + [tries + 1])
  {
    var rest := Attempts(h, op, tries + 1);
    assert Attempts(h, op, tries) == Run(rest.result, rest.invocations, [tries + 1] + rest.backoffs);
    assert backoffs + ([tries + 1] + rest.backoffs) == (backoffs + [tries + 1]) + rest.backoffs;
  }

  /** The loop ends with the invocation's own outcome: it succeeded, or its
      failure is not retried. */
  lemma StopsAt<T>(h: RetryHandler, op: nat -> Result<T>, tries: nat, backoffs: seq<int>)
    requires Resumes(h, op, tries, backoffs)
    requires op(tries).Ok? || tries > h.retryCount || !AnyMatches(h.conditions, op(tries).error)
    ensures Attempts(h, op, 0) == Run(op(tries), tries + 1, backoffs)
  {
    assert backoffs + [] == backoffs;
  }

  /** The loop ends with the exception of the backoff after a retried failure. */
  lemma StopsAtBackoff<T>(h: RetryHandler, op: nat -> Result<T>, tries: nat, backoffs: seq<int>)
    requires Resumes(h, op, tries, backoffs)
    requires op(tries).Fail? && !(tries > h.retryCount) && AnyMatches(h.conditions, op(tries).error)
    requires B.Backoff(h.backoff, tries + 1).Fail?
    ensures Attempts(h, op, 0) == Run(Fail(B.Backoff(h.backoff, tries + 1).error), tries + 1, backoffs + [tries + 1])
  {
  }

  /** A successful first call ends the loop after exactly one invocation, with its value. */
  lemma SucceedsFirst<T>(h: RetryHandler, op: nat -> Result<T>)
    requires op(0).Ok?
    ensures Attempts(h, op, 0) == Run(op(0), 1, [])
  {
  }

  /** An exception rejected by every condition is rethrown after one invocation. */
  lemma UnmatchedRethrown<T>(h: RetryHandler, op: nat -> Result<T>)
    requires op(0).Fail? && !AnyMatches(h.conditions, op(0).error)
    ensures Attempts(h, op, 0) == Run(op(0), 1, [])
  {
  }

  /** Backoff attempt numbers are consecutive from 1; the run ends with the
      last invocation's outcome or with the failure of the backoff after it. */
  lemma {:induction false} AttemptsShape<T>(h: RetryHandler, op: nat -> Result<T>, tries: nat)
    ensures var run := Attempts(h, op, tries);
      run.invocations > tries
      && (forall i :: 0 <= i < |run.backoffs| ==> run.backoffs[i] == tries + 1 + i)
      && ((run.result == op(run.invocations - 1) && |run.backoffs| == run.invocations - 1 - tries)
          || (B.Backoff(h.backoff, run.invocations).Fail?
              && run.result == Fail(B.Backoff(h.backoff, run.invocations).error)
              && |run.backoffs| == run.invocations - tries))
    decreases h.retryCount - tries
  {
    match op(tries)
    case Ok(v) =>
    case Fail(e) =>
      if tries > h.retryCount || !AnyMatches(h.conditions, e) {
      } else if B.Backoff(h.backoff, tries + 1).Ok? {
        AttemptsShape(h, op, tries + 1);
      }
  }

  /** An operation that fails k times with matching exceptions and then
      succeeds is invoked k + 1 times, with backoffs 1..k. */
  lemma {:induction false} SucceedsAfterRetries<T>(h: RetryHandler, op: nat -> Result<T>,
      c: B.IntervalCalculation, k: nat, tries: nat)
    requires B.Validate(c).Ok? && h.backoff == B.Interval(c)
    requires tries <= k <= h.retryCount + 1 && k <= R.MaxRetries
    requires forall i :: tries <= i < k ==> op(i).Fail? && AnyMatches(h.conditions, op(i).error)
    requires op(k).Ok?
    ensures Attempts(h, op, tries) == Run(op(k), k + 1, Range(tries + 1, k - tries))
    decreases k - tries
  {
    if tries < k {
      B.BackoffWithinBounds(c, tries + 1);
      SucceedsAfterRetries(h, op, c, k, tries + 1);
      assert Range(tries + 1, k - tries) == [tries + 1] + Range(tries + 2, k - tries - 1);
    }
  }

  /** The handler built with RetryTimes 5 and a match-all condition invokes an
      operation that fails until its fifth call exactly five times. */
  lemma FifthCallSucceeds<T>(h: RetryHandler, op: nat -> Result<T>, c: B.IntervalCalculation)
    requires B.Validate(c).Ok? && h == RetryHandler(5, B.Interval(c), [_ => true])
    requires forall i :: 0 <= i < 4 ==> op(i).Fail?
    requires op(4).Ok?
    ensures Attempts(h, op, 0).invocations == 5 && Attempts(h, op, 0).result == op(4)
  {
    SucceedsAfterRetries(h, op, c, 4, 0);
  }

  /** An operation that always fails with a matching exception is invoked
      RetryCount + 2 times while RetryCount + 1 stays within MaxRetries. */
  lemma {:induction false} PersistentFailure<T>(h: RetryHandler, op: nat -> Result<T>,
      c: B.IntervalCalculation, e: Exn, tries: nat)
    requires B.Validate(c).Ok? && h.backoff == B.Interval(c)
    requires 0 <= h.retryCount < R.MaxRetries && tries <= h.retryCount + 1
    requires forall i :: op(i) == Fail(e)
    requires AnyMatches(h.conditions, e)
    ensures Attempts(h, op, tries) == Run(Fail(e), h.retryCount + 2, Range(tries + 1, h.retryCount + 1 - tries))
    decreases h.retryCount - tries
  {
    if tries <= h.retryCount {
      B.BackoffWithinBounds(c, tries + 1);
      PersistentFailure(h, op, c, e, tries + 1);
      assert Range(tries + 1, h.retryCount + 1 - tries) == [tries + 1] + Range(tries + 2, h.retryCount - tries);
    }
  }
}

module SqlRootRetryHandler {
  import opened Common
  import B = SqlRootBackoffInterval
  import R = SqlRootRetryTimes

  datatype RetryHandler = RetryHandler(retryCount: int, backoff: B.BackoffInterval, conditions: seq<Condition>)

  /** The run of Execute from the point where `tries` invocations have failed:
      the k-th failure is rethrown iff k > RetryCount. */
  function Attempts<T>(h: RetryHandler, op: nat -> Result<T>, tries: nat): Run<T>
    decreases h.retryCount - tries
  {
    match op(tries)
    case Ok(v) => Run(Ok(v), tries + 1, [])
    case Fail(e) =>
      if tries + 1 > h.retryCount || !AnyMatches(h.conditions, e) then Run(Fail(e), tries + 1, [])
      else match B.Backoff(h.backoff, tries + 1)
        case Fail(failure) => Run(Fail(failure), tries + 1, [tries + 1])
        case Ok(_) =>
          var rest := Attempts(h, op, tries + 1);
          Run(rest.result, rest.invocations, [tries + 1] + rest.backoffs)
  }

  /** Execute(action): the do/while loop with its pre-incremented counter. */
  method Execute<T>(h: RetryHandler, op: nat -> Result<T>) returns (r: Result<T>, invocations: nat, backoffs: seq<int>)
    ensures Run(r, invocations, backoffs) == Attempts(h, op, 0)
  {
    var tries: nat := 0;
    backoffs := [];
    while true
      invariant tries == 0 || tries <= h.retryCount
      invariant Resumes(h, op, tries, backoffs)
      decreases h.retryCount - tries
    {
      var outcome := op(tries);
      if outcome.Ok? {
        StopsAt(h, op, tries, backoffs);
        r, invocations := outcome, tries + 1;
        break;
      }
      ghost var previous := tries;
      tries := tries + 1;
      if tries > h.retryCount || !AnyMatches(h.conditions, outcome.error) {
        StopsAt(h, op, previous, backoffs);
        return outcome, tries, backoffs;
      }
      ghost var before := backoffs;
      backoffs := backoffs + [tries];
      var delayed := B.Backoff(h.backoff, tries);
      if delayed.Fail? {
        StopsAtBackoff(h, op, previous, before);
        return Fail(delayed.error), tries, backoffs;
      }
      ResumesAfterBackoff(h, op, previous, before);
    }
  }

  /** The state of Execute's loop after `tries` failed invocations and the
      backoffs waited so far: the rest of the run completes the whole run. */
  ghost predicate Resumes<T>(h: RetryHandler, op: nat -> Result<T>, tries: nat, backoffs: seq<int>)
  {
    var rest := Attempts(h, op, tries);
    Attempts(h, op, 0) == Run(rest.result, rest.invocations, backoffs + rest.backoffs)
  }

  /** A retried failure moves the loop on by one invocation and one backoff. */
  lemma ResumesAfterBackoff<T>(h: RetryHandler, op: nat -> Result<T>, tries: nat, backoffs: seq<int>)
    requires Resumes(h, op, tries, backoffs)
    requires op(tries).Fail? && !(tries + 1 > h.retryCount) && AnyMatches(h.conditions, op(tries).error)
    requires B.Backoff(h.backoff, tries + 1).Ok?
    ensures Resumes(h, op, tries + 1, backoffs + [tries + 1])
  {
    var rest := Attempts(h, op, tries + 1);
    assert Attempts(h, op, tries) == Run(rest.result, rest.invocations, [tries + 1] + rest.backoffs);
    assert backoffs + ([tries + 1] + rest.backoffs) == (backoffs + [tries + 1]) + rest.backoffs;
  }

  /** The loop ends with the invocation's own outcome: it succeeded, or its
      failure is not retried. */
  lemma StopsAt<T>(h: RetryHandler, op: nat -> Result<T>, tries: nat, backoffs: seq<int>)
    requires Resumes(h, op, tries, backoffs)
    requires op(tries).Ok? || tries + 1 > h.retryCount || !AnyMatches(h.conditions, op(tries).error)
    ensures Attempts(h, op, 0) == Run(op(tries), tries + 1, backoffs)
  {
    assert backoffs + [] == backoffs;
  }

  /** The loop ends with the exception of the backoff after a retried failure. */
  lemma StopsAtBackoff<T>(h: RetryHandler, op: nat -> Result<T>, tries: nat, backoffs: seq<int>)
    requires Resumes(h, op, tries, backoffs)
    requires op(tries).Fail? && !(tries + 1 > h.retryCount) && AnyMatches(h.conditions, op(tries).error)
    requires B.Backoff(h.backoff, tries + 1).Fail?
    ensures Attempts(h, op, 0) == Run(Fail(B.Backoff(h.backoff, tries + 1).error), tries + 1, backoffs + [tries + 1])
  {
  }

  /** For a RetryCount within MaxRetries and a set interval, backoffs are 1, 2, …
      up to at most RetryCount, and the run ends either with the outcome of the
      operation's last invocation or, after a retried failure, with the
      exception Task.Delay throws for a delay below Timeout.Infinite. */
  lemma {:induction false} AttemptsShape<T>(h: RetryHandler, op: nat -> Result<T>, tries: nat)
    requires h.retryCount <= R.MaxRetries && h.backoff.Interval?
    ensures var run := Attempts(h, op, tries);
      run.invocations > tries
      && (forall i :: 0 <= i < |run.backoffs| ==> run.backoffs[i] == tries + 1 + i && run.backoffs[i] <= h.retryCount)
      && ((run.result == op(run.invocations - 1) && |run.backoffs| == run.invocations - 1 - tries)
          || (var delay := h.backoff.calculation(run.invocations);
              run.invocations <= h.retryCount && op(run.invocations - 1).Fail? && delay < InfiniteTimeout
              && run.result == Fail(ArgumentOutOfRange("millisecondsDelay", delay))
              && |run.backoffs| == run.invocations - tries))
    decreases h.retryCount - tries
  {
    match op(tries)
    case Ok(v) =>
    case Fail(e) =>
      if tries + 1 > h.retryCount || !AnyMatches(h.conditions, e) {
      } else if B.Backoff(h.backoff, tries + 1).Ok? {
        AttemptsShape(h, op, tries + 1);
      }
  }

  /** The first attempt in `from .. last` whose delay Task.Delay refuses. */
  function FirstRefused(compute: int -> int, from: int, last: int): (r: Option<int>)
    ensures r.None? <==> forall a :: from <= a <= last ==> compute(a) >= InfiniteTimeout
    ensures r.Some? ==> from <= r.value <= last && compute(r.value) < InfiniteTimeout
    ensures r.Some? ==> forall a :: from <= a < r.value ==> compute(a) >= InfiniteTimeout
    decreases last - from
  {
    if from > last then None
    else if compute(from) < InfiniteTimeout then Some(from)
    else FirstRefused(compute, from + 1, last)
  }

  /** A non-matching exception is rethrown after one attempt, with no backoff. */
  lemma UnmatchedRethrown<T>(h: RetryHandler, op: nat -> Result<T>)
    requires op(0).Fail? && !AnyMatches(h.conditions, op(0).error)
    ensures Attempts(h, op, 0) == Run(op(0), 1, [])
  {
  }

  /** The run of a permanently failing, matching operation from `tries`: it ends
      at the first attempt up to RetryCount whose delay Task.Delay refuses, with
      that exception, or else after RetryCount + 1 invocations with the
      operation's own. */
  function PersistentRun<T>(h: RetryHandler, e: Exn, tries: nat): Run<T>
    requires h.backoff.Interval? && tries <= h.retryCount
  {
    match FirstRefused(h.backoff.calculation, tries + 1, h.retryCount)
    case None => Run(Fail(e), h.retryCount + 1, Range(tries + 1, h.retryCount - tries))
    case Some(a) => Run(Fail(ArgumentOutOfRange("millisecondsDelay", h.backoff.calculation(a))), a, Range(tries + 1, a - tries))
  }

  /** A retried failure whose delay Task.Delay accepts continues the
      persistent run from the next attempt. */
  lemma PersistentStep<T>(h: RetryHandler, op: nat -> Result<T>, e: Exn, tries: nat)
    requires h.retryCount <= R.MaxRetries && h.backoff.Interval? && tries < h.retryCount
    requires op(tries) == Fail(e) && AnyMatches(h.conditions, e)
    requires h.backoff.calculation(tries + 1) >= InfiniteTimeout
    requires Attempts(h, op, tries + 1) == PersistentRun(h, e, tries + 1)
    ensures Attempts(h, op, tries) == PersistentRun(h, e, tries)
  {
    var compute := h.backoff.calculation;
    assert B.Backoff(h.backoff, tries + 1).Ok?;
    var rest := Attempts(h, op, tries + 1);
    assert Attempts(h, op, tries) == Run(rest.result, rest.invocations, [tries + 1] + rest.backoffs);
    var first := FirstRefused(compute, tries + 1, h.retryCount);
    assert first == FirstRefused(compute, tries + 2, h.retryCount);
    if first.None? {
      assert Range(tries + 1, h.retryCount - tries) == [tries + 1] + Range(tries + 2, h.retryCount - tries - 1);
    } else {
      var a := first.value;
      assert Range(tries + 1, a - tries) == [tries + 1] + Range(tries + 2, a - tries - 1);
    }
  }

  /** A permanently failing, matching operation runs RetryCount + 1 times, with
      backoffs at attempts 1 .. RetryCount, unless the delay of one of those
      attempts is below Timeout.Infinite: the run then ends at the first such
      attempt with the exception of Task.Delay. */
  lemma {:induction false} PersistentFailure<T>(h: RetryHandler, op: nat -> Result<T>, e: Exn, tries: nat)
    requires 1 <= h.retryCount <= R.MaxRetries && h.backoff.Interval? && tries <= h.retryCount
    requires forall i :: op(i) == Fail(e)
    requires AnyMatches(h.conditions, e)
    ensures Attempts(h, op, tries) == PersistentRun(h, e, tries)
    decreases h.retryCount - tries
  {
    var compute := h.backoff.calculation;
    if tries == h.retryCount {
      assert FirstRefused(compute, tries + 1, h.retryCount).None?;
    } else if compute(tries + 1) < InfiniteTimeout {
      assert FirstRefused(compute, tries + 1, h.retryCount) == Some(tries + 1);
      assert Range(tries + 1, 1) == [tries + 1];
    } else {
      PersistentFailure(h, op, e, tries + 1);
      PersistentStep(h, op, e, tries);
    }
  }

  /** A calculation that passes the validation as written yet asks for a
      negative delay at attempt MaxRetries: a permanently failing, matching
      operation then ends at that attempt with Task.Delay's exception, not
      with its own. */
  lemma RefusedLastDelay(e: Exn, conditions: seq<Condition>)
    requires AnyMatches(conditions, e)
    ensures var compute := (a: int) => if a == R.MaxRetries then -5 else B.MinBackoffMilliseconds;
      var op: nat -> Result<Unit> := (i: nat) => Fail(e);
      B.Validate(compute).Ok?
      && Attempts(RetryHandler(R.MaxRetries, B.Validate(compute).value, conditions), op, 0)
        == Run(Fail(ArgumentOutOfRange("millisecondsDelay", -5)), R.MaxRetries, Range(1, R.MaxRetries))
  {
    var compute := (a: int) => if a == R.MaxRetries then -5 else B.MinBackoffMilliseconds;
    var op: nat -> Result<Unit> := (i: nat) => Fail(e);
    assert forall i :: 0 <= i < R.MaxRetries ==> B.InBounds(compute(i));
    var h := RetryHandler(R.MaxRetries, B.Validate(compute).value, conditions);
    assert FirstRefused(compute, 1, R.MaxRetries) == Some(R.MaxRetries) by {
      assert FirstRefused(compute, R.MaxRetries, R.MaxRetries) == Some(R.MaxRetries);
    }
    PersistentFailure(h, op, e, 0);
  }
}
