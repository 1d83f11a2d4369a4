// BackoffInterval of Micron.SqlClient, in its two revisions: Retry/BackoffInterval.cs
// (bounds 50..30000, validates attempts 1..MaxRetries, delegate equality) and the
// earlier BackoffInterval.cs at the project root (bounds 250..30000, validates
// arguments 0..MaxRetries-1).
module SqlBackoffInterval {
  import opened Common
  import R = SqlRootRetryTimes

  const MaxBackoffMilliseconds := 30000
  const MinBackoffMilliseconds := 50

  /** An IntervalCalculation delegate: `identity` stands for the delegate's
      target and method, which delegate equality compares. */
  datatype IntervalCalculation = Calculation(identity: nat, compute: int -> int)

  /** `Unset` is default(BackoffInterval), whose delegate is null. */
  datatype BackoffInterval = Unset | Interval(calculation: IntervalCalculation)

  predicate InBounds(ms: int)
  {
    MinBackoffMilliseconds <= ms <= MaxBackoffMilliseconds
  }

  /** The first attempt in `from .. MaxRetries` whose interval is out of bounds. */
  function FirstOutOfBounds(compute: int -> int, from: int): (r: Option<int>)
    ensures r.None? <==> forall a :: from <= a <= R.MaxRetries ==> InBounds(compute(a))
    ensures r.Some? ==> from <= r.value <= R.MaxRetries && !InBounds(compute(r.value))
    ensures r.Some? ==> forall a :: from <= a < r.value ==> InBounds(compute(a))
    decreases R.MaxRetries - from
  {
    if from > R.MaxRetries then None
    else if !InBounds(compute(from)) then Some(from)
    else FirstOutOfBounds(compute, from + 1)
  }

  /** What the delegate constructor produces. */
  function Validate(c: IntervalCalculation): (r: Result<BackoffInterval>)
    ensures r.Ok? <==> forall a :: 1 <= a <= R.MaxRetries ==> InBounds(c.compute(a))
    ensures r.Ok? ==> r.value == Interval(c)
  {
    match FirstOutOfBounds(c.compute, 1)
    case None => Ok(Interval(c))
    case Some(a) => Fail(ArgumentOutOfRange("intervalCalculation", c.compute(a)))
  }

  /** The delegate constructor, with its validation loop. */
  method New(c: IntervalCalculation) returns (r: Result<BackoffInterval>)
    ensures r == Validate(c)
    ensures r.Fail? ==> exists a :: 1 <= a <= R.MaxRetries && !InBounds(c.compute(a))
                          && r.error == ArgumentOutOfRange("intervalCalculation", c.compute(a))
  {
    var i := 0;
    while i < R.MaxRetries
      invariant 0 <= i <= R.MaxRetries
      invariant forall a :: 1 <= a <= i ==> InBounds(c.compute(a))
    {
      var interval := c.compute(i + 1);
      if interval < MinBackoffMilliseconds || interval > MaxBackoffMilliseconds {
        assert FirstOutOfBounds(c.compute, 1) == Some(i + 1);
        return Fail(ArgumentOutOfRange("intervalCalculation", interval));
      }
      i := i + 1;
    }
    r := Ok(Interval(c));
  }

  /** The int constructor and implicit conversion: a constant calculation,
      accepted iff the constant is within bounds. */
  function FromMilliseconds(identity: nat, ms: int): (r: Result<BackoffInterval>)
    ensures r.Ok? <==> InBounds(ms)
    ensures r.Ok? ==> r.value.Interval? && forall a :: r.value.calculation.compute(a) == ms
    ensures r.Fail? ==> r.error == ArgumentOutOfRange("intervalCalculation", ms)
  {
    Validate(Calculation(identity, _ => ms))
  }

  /** Backoff(retryCount): the milliseconds delayed, or the exception thrown;
      Task.Delay refuses a delay below Timeout.Infinite. */
  function Backoff(b: BackoffInterval, retryCount: int): (r: Result<int>)
    ensures retryCount > R.MaxRetries ==> r == Fail(ArgumentOutOfRange("retryCount", retryCount))
    ensures retryCount <= R.MaxRetries && b.Unset? ==> r == Fail(NullReference)
    ensures r.Ok? <==> retryCount <= R.MaxRetries && b.Interval? && b.calculation.compute(retryCount) >= InfiniteTimeout
    ensures r.Ok? ==> r.value == b.calculation.compute(retryCount)
    ensures retryCount <= R.MaxRetries && b.Interval? && b.calculation.compute(retryCount) < InfiniteTimeout ==>
      r == Fail(ArgumentOutOfRange("millisecondsDelay", b.calculation.compute(retryCount)))
  {
    if retryCount > R.MaxRetries then Fail(ArgumentOutOfRange("retryCount", retryCount))
    else match b
      case Unset => Fail(NullReference)
      case Interval(c) => Delay("millisecondsDelay", c.compute(retryCount))
  }

  lemma BackoffWithinBounds(c: IntervalCalculation, retryCount: int)
    requires Validate(c).Ok?
    ensures 1 <= retryCount <= R.MaxRetries ==>
      Backoff(Validate(c).value, retryCount) == Ok(c.compute(retryCount)) && InBounds(c.compute(retryCount))
    ensures retryCount > R.MaxRetries ==>
      Backoff(Validate(c).value, retryCount) == Fail(ArgumentOutOfRange("retryCount", retryCount))
  {
  }

  /** The delegate of an interval, as EqualityComparer<IntervalCalculation>.Default sees it. */
  function Delegate(b: BackoffInterval): Option<nat>
  {
    match b
    case Unset => None
    case Interval(c) => Some(c.identity)
  }

  /** Equals(object): both delegates null, or the same delegate. */
  function Equals(a: BackoffInterval, b: BackoffInterval): (r: bool)
    ensures r <==> Delegate(a) == Delegate(b)
  {
    match (a, b)
    case (Unset, Unset) => true
    case (Interval(x), Interval(y)) => x.identity == y.identity
    case _ => false
  }

  /** GetHashCode: HashCode.Combine(delegate), the combiner given as a parameter. */
  function HashCode(combine: Option<nat> -> int, b: BackoffInterval): (r: int)
    ensures b.Unset? ==> r == combine(None)
    ensures b.Interval? ==> r == combine(Some(b.calculation.identity))
  {
    combine(Delegate(b))
  }

  /** Two intervals are equal iff their delegates are; equality is an
      equivalence and equal intervals hash alike. */
  lemma EqualityOfDelegates(combine: Option<nat> -> int, a: BackoffInterval, b: BackoffInterval, c: BackoffInterval)
    ensures Equals(a, b) <==> Delegate(a) == Delegate(b)
    ensures Equals(a, a) && (Equals(a, b) ==> Equals(b, a))
    ensures Equals(a, b) && Equals(b, c) ==> Equals(a, c)
    ensures Equals(a, b) ==> HashCode(combine, a) == HashCode(combine, b)
  {
  }
}

module SqlRootBackoffInterval {
  import opened Common
  import R = SqlRootRetryTimes

  const MaxBackoffMilliseconds := 30000
  const MinBackoffMilliseconds := 250

  /** `Unset` is default(BackoffInterval), whose Func<int, int> is null. */
  datatype BackoffInterval = Unset | Interval(calculation: int -> int)

  predicate InBounds(ms: int)
  {
    MinBackoffMilliseconds <= ms <= MaxBackoffMilliseconds
  }

  /** The first argument in `from .. last` whose interval is out of bounds. */
  function FirstOutOfBounds(compute: int -> int, from: int, last: int): (r: Option<int>)
    ensures r.None? <==> forall a :: from <= a <= last ==> InBounds(compute(a))
    ensures r.Some? ==> from <= r.value <= last && !InBounds(compute(r.value))
    ensures r.Some? ==> forall a :: from <= a < r.value ==> InBounds(compute(a))
    decreases last - from
  {
    if from > last then None
    else if !InBounds(compute(from)) then Some(from)
    else FirstOutOfBounds(compute, from + 1, last)
  }

  /** What the constructor produces as written: the calculation is evaluated at
      i = 0 .. MaxRetries-1, not at the attempts 1 .. MaxRetries that Backoff uses. */
  function Validate(compute: int -> int): (r: Result<BackoffInterval>)
    ensures r.Ok? <==> forall i :: 0 <= i < R.MaxRetries ==> InBounds(compute(i))
    ensures r.Ok? ==> r.value == Interval(compute)
  {
    match FirstOutOfBounds(compute, 0, R.MaxRetries - 1)
    case None => Ok(Interval(compute))
    case Some(i) => Fail(ArgumentOutOfRange("intervalCalculation", compute(i)))
  }

  /** The constructor's loop over i = 0 .. MaxRetries-1. */
  method New(compute: int -> int) returns (r: Result<BackoffInterval>)
    ensures r == Validate(compute)
    ensures r.Fail? ==> exists i :: 0 <= i < R.MaxRetries && !InBounds(compute(i))
                          && r.error == ArgumentOutOfRange("intervalCalculation", compute(i))
  {
    var i := 0;
    while i < R.MaxRetries
      invariant 0 <= i <= R.MaxRetries
      invariant forall a :: 0 <= a < i ==> InBounds(compute(a))
    {
      var interval := compute(i);
      if interval < MinBackoffMilliseconds || interval > MaxBackoffMilliseconds {
        assert FirstOutOfBounds(compute, 0, R.MaxRetries - 1) == Some(i);
        return Fail(ArgumentOutOfRange("intervalCalculation", interval));
      }
      i := i + 1;
    }
    r := Ok(Interval(compute));
  }

  /** The int constructor and implicit conversion: accepted iff the constant is within bounds. */
  function FromMilliseconds(ms: int): (r: Result<BackoffInterval>)
    ensures r.Ok? <==> InBounds(ms)
    ensures r.Ok? ==> r.value.Interval? && forall a :: r.value.calculation(a) == ms
    ensures r.Fail? ==> r.error == ArgumentOutOfRange("intervalCalculation", ms)
  {
    Validate(_ => ms)
  }

  /** Backoff(retryCount): the milliseconds delayed, or the exception thrown;
      Task.Delay refuses a delay below Timeout.Infinite. */
  function Backoff(b: BackoffInterval, retryCount: int): (r: Result<int>)
    ensures retryCount > R.MaxRetries ==> r == Fail(ArgumentOutOfRange("retryCount", retryCount))
    ensures retryCount <= R.MaxRetries && b.Unset? ==> r == Fail(NullReference)
    ensures r.Ok? <==> retryCount <= R.MaxRetries && b.Interval? && b.calculation(retryCount) >= InfiniteTimeout
    ensures r.Ok? ==> r.value == b.calculation(retryCount)
    ensures retryCount <= R.MaxRetries && b.Interval? && b.calculation(retryCount) < InfiniteTimeout ==>
      r == Fail(ArgumentOutOfRange("millisecondsDelay", b.calculation(retryCount)))
  {
    if retryCount > R.MaxRetries then Fail(ArgumentOutOfRange("retryCount", retryCount))
    else match b
      case Unset => Fail(NullReference)
      case Interval(compute) => Delay("millisecondsDelay", compute(retryCount))
  }

  /** As written, a calculation can pass validation and still yield an
      out-of-bounds delay at attempt MaxRetries, the attempt that is never validated. */
  lemma UnvalidatedLastAttempt()
    ensures var compute := (a: int) => if a == R.MaxRetries then 0 else MinBackoffMilliseconds;
      Validate(compute).Ok? && Backoff(Validate(compute).value, R.MaxRetries) == Ok(0) && !InBounds(0)
  {
    var compute := (a: int) => if a == R.MaxRetries then 0 else MinBackoffMilliseconds;
    assert forall i :: 0 <= i < R.MaxRetries ==> InBounds(compute(i));
  }

  /** The evidently intended validation, over the attempts 1 .. MaxRetries that Backoff receives. */
  function ValidateAttempts(compute: int -> int): (r: Result<BackoffInterval>)
    ensures r.Ok? <==> forall a :: 1 <= a <= R.MaxRetries ==> InBounds(compute(a))
    ensures r.Ok? ==> r.value == Interval(compute)
  {
    match FirstOutOfBounds(compute, 1, R.MaxRetries)
    case None => Ok(Interval(compute))
    case Some(a) => Fail(ArgumentOutOfRange("intervalCalculation", compute(a)))
  }

  /** With the intended validation every delay Backoff can produce is within bounds. */
  lemma ValidatedBackoffWithinBounds(compute: int -> int, retryCount: int)
    requires ValidateAttempts(compute).Ok?
    requires 1 <= retryCount
    ensures Backoff(ValidateAttempts(compute).value, retryCount).Ok? ==>
      InBounds(Backoff(ValidateAttempts(compute).value, retryCount).value)
    ensures retryCount <= R.MaxRetries <==> Backoff(ValidateAttempts(compute).value, retryCount).Ok?
  {
  }
}
