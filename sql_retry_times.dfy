// RetryTimes of Micron.SqlClient, in its two revisions: Retry/RetryTimes.cs
// (namespace Micron.SqlClient.Retry, with value equality) and the earlier
// RetryTimes.cs at the project root (namespace Micron.SqlClient).
module SqlRetryTimes {
  import opened Common

  const MaxRetries := 5

  /** The struct; default(RetryTimes) is RetryTimes(0). */
  datatype RetryTimes = RetryTimes(retryCount: int)

  /** The range-checked constructor, also reached by the implicit conversion from int. */
  function New(retryCount: int): (r: Result<RetryTimes>)
    ensures r.Ok? <==> 1 <= retryCount <= MaxRetries
    ensures r.Ok? ==> r.value.retryCount == retryCount
    ensures r.Fail? ==> r.error == ArgumentOutOfRange("retryCount", retryCount)
  {
    if retryCount < 1 || retryCount > MaxRetries then Fail(ArgumentOutOfRange("retryCount", retryCount))
    else Ok(RetryTimes(retryCount))
  }

  /** Equals(object): same RetryCount. */
  function Equals(a: RetryTimes, b: RetryTimes): (r: bool)
    ensures r <==> a == b
  {
    a.retryCount == b.retryCount
  }

  /** GetHashCode: HashCode.Combine(RetryCount), the combiner given as a parameter. */
  function HashCode(combine: int -> int, t: RetryTimes): int
  {
    combine(t.retryCount)
  }

  /** Equals is value equality, and equal values hash alike. */
  lemma EqualsIsValueEquality(combine: int -> int, a: RetryTimes, b: RetryTimes)
    ensures Equals(a, b) <==> a == b
    ensures Equals(a, b) ==> HashCode(combine, a) == HashCode(combine, b)
  {
  }

  /** The values the tests use: 0 and 6 are rejected, 1 and 5 accepted. */
  lemma RangeEnds()
    ensures New(0).Fail? && New(6).Fail? && New(1).Ok? && New(MaxRetries).Ok?
  {
  }
}

module SqlRootRetryTimes {
  import opened Common

  const MaxRetries := 5

  datatype RetryTimes = RetryTimes(retryCount: int)

  /** The range-checked constructor, also reached by the implicit conversion from int. */
  function New(retryCount: int): (r: Result<RetryTimes>)
    ensures r.Ok? <==> 1 <= retryCount <= MaxRetries
    ensures r.Ok? ==> r.value.retryCount == retryCount
    ensures r.Fail? ==> r.error == ArgumentOutOfRange("retryCount", retryCount)
  {
    if retryCount < 1 || retryCount > MaxRetries then Fail(ArgumentOutOfRange("retryCount", retryCount))
    else Ok(RetryTimes(retryCount))
  }
}
