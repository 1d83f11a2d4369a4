// The Micron.Retry BackoffInterval struct: a delay calculation that is
// validated once, for every attempt a retry handler may make, when the
// interval is built, and evaluated again at each backoff.
module MicronBackoffInterval {
  import opened Common

  const MaxBackoffMilliseconds := 10000
  const MinBackoffMilliseconds := 20
  /** RetryTimes.MaxRetries of the Micron.Retry namespace. */
  const MaxRetries := 5

  /** The IntervalCalculation delegate: attempt number to milliseconds. */
  type IntervalCalculation = int -> int

  /** `Unset` is default(BackoffInterval), whose delegate is null. */
  datatype BackoffInterval = Unset | Interval(calculation: IntervalCalculation)

  predicate InBounds(ms: int)
  {
    MinBackoffMilliseconds <= ms <= MaxBackoffMilliseconds
  }

  /** The first attempt in `from .. MaxRetries` whose interval is out of bounds. */
  function FirstOutOfBounds(compute: IntervalCalculation, from: int): (r: Option<int>)
    ensures r.None? <==> forall a :: from <= a <= MaxRetries ==> InBounds(compute(a))
    ensures r.Some? ==> from <= r.value <= MaxRetries && !InBounds(compute(r.value))
    ensures r.Some? ==> forall a :: from <= a < r.value ==> InBounds(compute(a))
    decreases MaxRetries - from
  {
    if from > MaxRetries then None
    else if !InBounds(compute(from)) then Some(from)
    else FirstOutOfBounds(compute, from + 1)
  }

  /** What the delegate constructor produces: the interval, or the
      ArgumentOutOfRangeException for the first attempt 1..MaxRetries whose
      calculated interval leaves [MinBackoffMilliseconds, MaxBackoffMilliseconds]. */
  function Validate(compute: IntervalCalculation): (r: Result<BackoffInterval>)
  {
    match FirstOutOfBounds(compute, 1)
    case None => Ok(Interval(compute))
    case Some(a) => Fail(ArgumentOutOfRange("intervalCalculation", compute(a)))
  }

  lemma ValidateAccepts(compute: IntervalCalculation)
    ensures Validate(compute).Ok? <==> forall a :: 1 <= a <= MaxRetries ==> InBounds(compute(a))
    ensures Validate(compute).Ok? ==> Validate(compute).value == Interval(compute)
  {
  }

  /** The delegate constructor, with its validation loop. */
  method New(compute: IntervalCalculation) returns (r: Result<BackoffInterval>)
    ensures r == Validate(compute)
    ensures r.Ok? <==> forall a :: 1 <= a <= MaxRetries ==> InBounds(compute(a))
    ensures r.Fail? ==> exists a :: 1 <= a <= MaxRetries && !InBounds(compute(a))
                          && r.error == ArgumentOutOfRange("intervalCalculation", compute(a))
  {
    var i := 0;
    while i < MaxRetries
      invariant 0 <= i <= MaxRetries
      invariant forall a :: 1 <= a <= i ==> InBounds(compute(a))
    {
      var interval := compute(i + 1);
      if interval < MinBackoffMilliseconds {
        r := Fail(ArgumentOutOfRange("intervalCalculation", interval));
        assert FirstOutOfBounds(compute, 1) == Some(i + 1);
        return;
      }
      if interval > MaxBackoffMilliseconds {
        r := Fail(ArgumentOutOfRange("intervalCalculation", interval));
        assert FirstOutOfBounds(compute, 1) == Some(i + 1);
        return;
      }
      i := i + 1;
    }
    r := Ok(Interval(compute));
  }

  /** The int constructor and the implicit conversion from int: a constant calculation. */
  function FromMilliseconds(ms: int): (r: Result<BackoffInterval>)
    ensures r.Ok? <==> InBounds(ms)
    ensures r.Ok? ==> r.value.Interval? && forall a :: r.value.calculation(a) == ms
    ensures r.Fail? ==> r.error == ArgumentOutOfRange("intervalCalculation", ms)
  {
    Validate(_ => ms)
  }

  /** Backoff(attempt): Thread.Sleep of the calculated interval; the
      milliseconds the thread sleeps, or the exception thrown. */
  function Backoff(b: BackoffInterval, attempt: int): (r: Result<int>)
    ensures attempt > MaxRetries ==> r == Fail(ArgumentOutOfRange("attempt", attempt))
    ensures attempt <= MaxRetries && b.Unset? ==> r == Fail(NullReference)
    ensures r.Ok? <==> attempt <= MaxRetries && b.Interval? && b.calculation(attempt) >= InfiniteTimeout
    ensures r.Ok? ==> r.value == b.calculation(attempt)
    ensures attempt <= MaxRetries && b.Interval? && b.calculation(attempt) < InfiniteTimeout ==>
      r == Fail(ArgumentOutOfRange("millisecondsTimeout", b.calculation(attempt)))
  {
    if attempt > MaxRetries then Fail(ArgumentOutOfRange("attempt", attempt))
    else match b
      case Unset => Fail(NullReference)
      case Interval(compute) => Delay("millisecondsTimeout", compute(attempt))
  }

  /** BackoffAsync(attempt, ct): the same guard and calculation, then
      Task.Delay(interval, ct), which refuses a delay below Timeout.Infinite
      before it looks at the token; a cancelled token then fails the delay. */
  function BackoffAsync(b: BackoffInterval, attempt: int, cancelled: bool): (r: Result<int>)
    ensures r.Ok? <==> !cancelled && Backoff(b, attempt).Ok?
    ensures r.Ok? ==> r == Backoff(b, attempt)
    ensures cancelled && Backoff(b, attempt).Ok? ==> r == Fail(OperationCanceled)
  {
    if attempt > MaxRetries then Fail(ArgumentOutOfRange("attempt", attempt))
    else match b
      case Unset => Fail(NullReference)
      case Interval(compute) =>
        var delayed := Delay("millisecondsDelay", compute(attempt));
        if delayed.Ok? && cancelled then Fail(OperationCanceled) else delayed
  }

  /** A validated interval sleeps within bounds for every attempt 1..MaxRetries
      and rejects every attempt beyond MaxRetries. */
  lemma BackoffWithinBounds(compute: IntervalCalculation, attempt: int)
    requires Validate(compute).Ok?
    ensures 1 <= attempt <= MaxRetries ==>
      Backoff(Validate(compute).value, attempt).Ok? && InBounds(Backoff(Validate(compute).value, attempt).value)
    ensures attempt > MaxRetries ==>
      Backoff(Validate(compute).value, attempt) == Fail(ArgumentOutOfRange("attempt", attempt))
  {
    ValidateAccepts(compute);
  }

  /** With a token that is not cancelled the asynchronous backoff waits as
      the synchronous one does, and both throw for the same attempts; only the
      parameter name Task.Delay and Thread.Sleep give a refused delay differs.
      A cancelled token fails every delay the argument check lets through. */
  lemma BackoffAsyncAgrees(b: BackoffInterval, attempt: int)
    ensures BackoffAsync(b, attempt, false).Ok? <==> Backoff(b, attempt).Ok?
    ensures BackoffAsync(b, attempt, false).Ok? ==> BackoffAsync(b, attempt, false) == Backoff(b, attempt)
    ensures !(b.Interval? && attempt <= MaxRetries) ==> BackoffAsync(b, attempt, false) == Backoff(b, attempt)
    ensures b.Interval? && attempt <= MaxRetries && b.calculation(attempt) < InfiniteTimeout ==>
      BackoffAsync(b, attempt, false) == Fail(ArgumentOutOfRange("millisecondsDelay", b.calculation(attempt)))
      && Backoff(b, attempt) == Fail(ArgumentOutOfRange("millisecondsTimeout", b.calculation(attempt)))
    ensures b.Interval? && attempt <= MaxRetries ==>
      BackoffAsync(b, attempt, true)
        == (if b.calculation(attempt) < InfiniteTimeout
            then Fail(ArgumentOutOfRange("millisecondsDelay", b.calculation(attempt)))
            else Fail(OperationCanceled))
  {
  }

  /** For a validated interval and the attempts a retry handler makes, the
      two backoffs are the same whenever the token is not cancelled. */
  lemma ValidatedBackoffAsyncAgrees(compute: IntervalCalculation, attempt: int)
    requires Validate(compute).Ok?
    requires attempt >= 1
    ensures BackoffAsync(Validate(compute).value, attempt, false) == Backoff(Validate(compute).value, attempt)
  {
    if attempt <= MaxRetries {
      BackoffWithinBounds(compute, attempt);
    }
  }

  /** No lower bound is checked: an attempt below 1 reaches the calculation
      unvalidated, and its value goes to Thread.Sleep as it is, which refuses
      it only below Timeout.Infinite. */
  lemma BackoffHasNoLowerBound(compute: IntervalCalculation, attempt: int)
    requires attempt < 1
    ensures compute(attempt) >= InfiniteTimeout ==> Backoff(Interval(compute), attempt) == Ok(compute(attempt))
    ensures compute(attempt) < InfiniteTimeout ==>
      Backoff(Interval(compute), attempt) == Fail(ArgumentOutOfRange("millisecondsTimeout", compute(attempt)))
  {
  }
}
