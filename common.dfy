// Shared vocabulary of the Micron model: the exceptions the library throws or
// lets through, the outcome of an operation, and the observable trace of a run
// (log entries and the calls made on the database driver).
module Common {

  datatype Option<T> = None | Some(value: T)

  datatype Unit = Unit

  /** Why a MicronException was thrown. */
  datatype MicronReason =
    | Unhandled                                      // "An unhandled exception occurred."
    | UnexpectedAffected(expected: int, actual: int) // affected-row count differs from the expectation
    | Unconvertible                                  // a scalar could not be converted to the requested type

  /** The exceptions of the model. `Raised` stands for any exception thrown by
      caller code or by the database driver; its tag tells such exceptions apart. */
  datatype Exn =
    | Raised(tag: nat)
    | ArgumentOutOfRange(paramName: string, actualValue: int)
    | Argument(paramName: string)
    | RootCause
    | Micron(reason: MicronReason, inner: Option<Exn>)
    | OperationCanceled
    | NotImplemented
    | IndexOutOfRange
    | NullReference
    | DivideByZero
    | StackOverflow
    | Format                                         // a string that is not a number
    | Overflow                                       // a number outside the target type's range
    | InvalidCast                                    // an unboxing cast to a type the value does not have

  /** Either the value an operation returned or the exception it threw. */
  datatype Result<T> = Ok(value: T) | Fail(error: Exn)

  /** What a retry handler did: the outcome it returned or rethrew, how many times
      it invoked the operation, and the attempt numbers it backed off with, in order. */
  datatype Run<T> = Run(result: Result<T>, invocations: nat, backoffs: seq<int>)

  datatype Level = Debug | Information | Error

  datatype Arg = Text(text: string) | Num(n: int) | Failure(exn: Exn)

  /** One observable step of a run. */
  datatype Event =
    | Log(level: Level, template: string, args: seq<Arg>)   // an ILogger call
    | Configured(text: string)        // the command configurer was applied to a command
    | Ran(text: string)               // the innermost handler executed a command
    | Open | Close                    // connection opened / closed
    | Begin                           // a transaction was begun
    | Exec(index: nat)                // the command at this position was executed
    | Callback(position: int, affected: int) // the caller's callback was invoked
    | Row(index: nat)                 // the caller's row callback was invoked on this row
    | Commit | Rollback | DisposeTransaction
    | DisposeConnection               // a `using` scope disposed the connection
    | Created(id: nat) | Disposed(id: nat) // a driver command object was created / disposed

  /** Timeout.Infinite, the one negative delay Thread.Sleep and Task.Delay accept. */
  const InfiniteTimeout := -1

  /** Thread.Sleep(ms) (`param` "millisecondsTimeout") and Task.Delay(ms)
      (`param` "millisecondsDelay"): the delay waited, or the
      ArgumentOutOfRangeException for a delay below Timeout.Infinite. */
  function Delay(param: string, ms: int): (r: Result<int>)
    ensures r.Ok? <==> ms >= InfiniteTimeout
    ensures r.Ok? ==> r.value == ms
    ensures r.Fail? ==> r.error == ArgumentOutOfRange(param, ms)
  {
    if ms < InfiniteTimeout then Fail(ArgumentOutOfRange(param, ms)) else Ok(ms)
  }

  /** A retry condition (Func<Exception, bool>). */
  type Condition = Exn -> bool

  /** conditions.Any(condition => condition(ex)): the conditions are OR-combined,
      and an empty list matches nothing. */
  function AnyMatches(conditions: seq<Condition>, e: Exn): (r: bool)
    ensures r <==> exists i :: 0 <= i < |conditions| && conditions[i](e)
  {
    if conditions == [] then false
    else conditions[0](e) || AnyMatches(conditions[1..], e)
  }

  /** The concatenation of a sequence of sequences. */
  function Flatten<T>(ss: seq<seq<T>>): (r: seq<T>)
  {
    if ss == [] then [] else ss[0] + Flatten(ss[1..])
  }

  lemma {:induction false} FlattenAppend<T>(ss: seq<seq<T>>, s: seq<T>)
    ensures Flatten(ss + [s]) == Flatten(ss) + s
  {
    if ss == [] {
      assert [] + [s] == [s];
    } else {
      assert (ss + [s])[1..] == ss[1..] + [s];
      FlattenAppend(ss[1..], s);
    }
  }

  /** The sum of a sequence of integers. */
  function Sum(s: seq<int>): (r: int)
  {
    if s == [] then 0 else Sum(s[..|s| - 1]) + s[|s| - 1]
  }

  /** An unchecked C# `int` result: x reduced modulo 2^32 into -2^31 .. 2^31-1. */
  function Int32(x: int): (r: int)
    ensures -0x8000_0000 <= r < 0x8000_0000
    ensures -0x8000_0000 <= x < 0x8000_0000 ==> r == x
  {
    var m := (x + 0x8000_0000) % 0x1_0000_0000 - 0x8000_0000;
    if -0x8000_0000 <= x < 0x8000_0000 then
      DivModUnique(x + 0x8000_0000, 0x1_0000_0000, 0, x + 0x8000_0000);
      m
    else m
  }

  /** Adding a multiple of the divisor does not change the remainder. */
  lemma ModMultipleShift(q: int, y: int, n: int)
    requires n >= 1
    ensures (q * n + y) % n == y % n
  {
    var q', r' := y / n, y % n;
    assert q * n + y == (q + q') * n + r' by {
      assert y == q' * n + r';
      assert (q + q') * n == q * n + q' * n;
    }
    DivModUnique(q * n + y, n, q + q', r');
  }

  /** Wrapping the running total before adding changes nothing modulo 2^32. */
  lemma Int32Add(a: int, b: int)
    ensures Int32(Int32(a) + b) == Int32(a + b)
  {
    var n := 0x1_0000_0000;
    var c := 0x8000_0000;
    var q, r := (a + c) / n, (a + c) % n;
    assert Int32(a) + b + c == r + b;
    assert a + b + c == q * n + (r + b);
    ModMultipleShift(q, r + b, n);
  }

  /** `total += x` over s, from 0, in unchecked `int` arithmetic. */
  function WrappedSum(s: seq<int>): (r: int)
    ensures -0x8000_0000 <= r < 0x8000_0000
  {
    if s == [] then 0 else Int32(WrappedSum(s[..|s| - 1]) + s[|s| - 1])
  }

  /** The wrapped total is the true sum reduced into the `int` range, and is
      the true sum whenever that fits. */
  lemma {:induction false} WrappedSumIsSumModulo(s: seq<int>)
    ensures WrappedSum(s) == Int32(Sum(s))
    ensures -0x8000_0000 <= Sum(s) < 0x8000_0000 ==> WrappedSum(s) == Sum(s)
  {
    if s != [] {
      var init := s[..|s| - 1];
      WrappedSumIsSumModulo(init);
      Int32Add(Sum(init), s[|s| - 1]);
    }
  }

  /** Counts whose true sum passes int.MaxValue come back negative. */
  lemma WrappedSumOverflows()
    ensures WrappedSum([0x7FFF_FFFF, 1]) == -0x8000_0000
  {
    assert [0x7FFF_FFFF, 1][..1] == [0x7FFF_FFFF];
    assert [0x7FFF_FFFF][..0] == [];
    DivModUnique(0x1_0000_0000, 0x1_0000_0000, 1, 0);
  }

  /** The indices 0 .. n-1 in order (C#'s Enumerable.Range(0, n)). */
  function Range(lo: int, n: nat): (r: seq<int>)
    ensures |r| == n && forall i :: 0 <= i < n ==> r[i] == lo + i
  {
    if n == 0 then [] else Range(lo, n - 1) + [lo + n - 1]
  }

  /** C#'s integer division, which truncates toward zero. */
  function CsDiv(a: int, b: int): (q: int)
    requires b != 0
  {
    var m := Abs(a) / Abs(b);
    if (a < 0) == (b < 0) then m else -m
  }

  function Abs(x: int): nat
  {
    if x < 0 then -x else x
  }

  lemma {:induction false} MulAtLeast(a: int, n: int)
    requires a >= 1 && n >= 1
    ensures a * n >= n
    decreases a
  {
    if a > 1 {
      MulAtLeast(a - 1, n);
      assert a * n == (a - 1) * n + n;
    }
  }

  /** Euclidean division is unique: a quotient and remainder in range are x / n and x % n. */
  lemma DivModUnique(x: int, n: int, q: int, r: int)
    requires n >= 1 && 0 <= r < n && x == q * n + r
    ensures x / n == q && x % n == r
  {
    var q', r' := x / n, x % n;
    assert x == q' * n + r';
    assert (q' - q) * n == q' * n - q * n;
    if q' > q {
      MulAtLeast(q' - q, n);
      assert false;
    } else if q' < q {
      MulAtLeast(q - q', n);
      assert false;
    }
  }

  /** Shifting the dividend by one divisor shifts the quotient by one and keeps the remainder. */
  lemma DivModShift(x: int, n: int)
    requires n >= 1
    ensures (x + n) / n == x / n + 1 && (x + n) % n == x % n
  {
    var q, r := x / n, x % n;
    assert x + n == (q + 1) * n + r;
    DivModUnique(x + n, n, q + 1, r);
  }

  /** What ExecuteScalar answered, as seen by a cast to T: DBNull.Value, null
      (the query returned no row), a value of type T, or a value of another type. */
  datatype DbValue<T> = DbNull | NoRow | Value(value: T) | Mistyped

  /** All elements equal the first: a non-empty sequence has exactly one distinct element. */
  predicate AllSame<T(==)>(s: seq<T>)
  {
    forall i :: 0 <= i < |s| ==> s[i] == s[0]
  }

  /** The first invocation in from .. n-1 whose outcome is a failure, or n if none is. */
  function FirstFailure<T>(outcome: nat -> Result<T>, n: nat, from: nat): (k: nat)
    requires from <= n
    ensures from <= k <= n
    ensures forall i :: from <= i < k ==> outcome(i).Ok?
    ensures k < n ==> outcome(k).Fail?
    decreases n - from
  {
    if from == n || outcome(from).Fail? then from else FirstFailure(outcome, n, from + 1)
  }

  /** The executions of commands 0 .. m-1, in order. */
  function Execs(m: nat): (r: seq<Event>)
    ensures |r| == m && forall i :: 0 <= i < m ==> r[i] == Exec(i)
  {
    if m == 0 then [] else Execs(m - 1) + [Exec(m - 1)]
  }

  /** The callbacks (i, affected[i]) for i = 0 .. m-1, in order. */
  function Callbacks(affected: seq<int>, m: nat): (r: seq<Event>)
    requires m <= |affected|
    ensures |r| == m && forall i :: 0 <= i < m ==> r[i] == Callback(i, affected[i])
  {
    if m == 0 then [] else Callbacks(affected, m - 1) + [Callback(m - 1, affected[m - 1])]
  }

  /** The elements of s that satisfy p, in order. */
  function Filter<T>(s: seq<T>, p: T -> bool): (r: seq<T>)
    ensures |r| <= |s|
    ensures forall x :: x in r ==> x in s && p(x)
  {
    if s == [] then [] else (if p(s[0]) then [s[0]] else []) + Filter(s[1..], p)
  }

  lemma {:induction false} FilterAppend<T>(a: seq<T>, b: seq<T>, p: T -> bool)
    ensures Filter(a + b, p) == Filter(a, p) + Filter(b, p)
  {
    if a == [] {
      assert a + b == b;
    } else {
      assert (a + b)[1..] == a[1..] + b;
      FilterAppend(a[1..], b, p);
    }
  }

  // ---------------------------------------------------------------------------
  // Vocabulary of the handler decorators.

  /** What one call did: the value it returned or the exception it threw, and
      the events it caused, in order. */
  type Traced<T> = (Result<T>, seq<Event>)

  /** The ILogger a decorator writes to: one that records its entries, or
      NullLogger.Instance, which drops them. */
  datatype Logger = Recording | Silent

  /** One ILogger call on the logger. */
  function Emit(logger: Logger, entry: Event): seq<Event>
  {
    if logger.Recording? then [entry] else []
  }

  /** Everything in a trace but the log entries: the calls made on the driver,
      the configurer and the caller's callbacks. */
  predicate IsCall(e: Event)
  {
    !e.Log?
  }

  function Calls(events: seq<Event>): seq<Event>
  {
    Filter(events, IsCall)
  }

  predicate IsErrorLog(e: Event)
  {
    e.Log? && e.level == Error
  }

  predicate IsConfigured(e: Event)
  {
    e.Configured?
  }

  /** `new MicronException("An unhandled exception occurred.", ex)`. */
  function Wrapped(e: Exn): Exn
  {
    Micron(Unhandled, Some(e))
  }

  /** The cause of a failure wrapped by Try; any other outcome as it is. */
  function Unwrapped<T>(r: Result<T>): Result<T>
  {
    if r.Fail? && r.error.Micron? && r.error.reason.Unhandled? && r.error.inner.Some?
    then Fail(r.error.inner.value) else r
  }

  /** How many Try wrappers enclose an exception. */
  function Depth(e: Exn): nat
  {
    if e.Micron? && e.reason.Unhandled? && e.inner.Some? then 1 + Depth(e.inner.value) else 0
  }

  /** A DbCommand as the decorators see it: its text and a setting a
      configurer may change. */
  datatype DbCommand = DbCommand(text: string, timeoutSeconds: int)

  /** An IDbCommandConfigurer or a configuration pipeline: the command to use
      in place of the given one, or the exception it threw. */
  type Configurer = DbCommand -> Result<DbCommand>

  /** A CancellationToken: whether cancellation has been requested by the
      start of the a-th attempt of an operation. */
  type Token = nat -> bool

  /** `default(CancellationToken)`, which is never cancelled. */
  function NoToken(): (ct: Token)
    ensures forall a :: !ct(a)
  {
    a => false
  }

  /** Log entries around a trace leave its calls as they are. */
  lemma CallsBetweenLogs(before: seq<Event>, mid: seq<Event>, after: seq<Event>)
    requires forall e :: e in before ==> e.Log?
    requires forall e :: e in after ==> e.Log?
    ensures Calls(before + mid + after) == Calls(mid)
  {
    NoCalls(before);
    NoCalls(after);
    FilterAppend(before, mid, IsCall);
    FilterAppend(before + mid, after, IsCall);
  }

  lemma {:induction false} NoCalls(events: seq<Event>)
    requires forall e :: e in events ==> e.Log?
    ensures Calls(events) == []
  {
    if events != [] {
      assert forall e :: e in events[1..] ==> e in events;
      NoCalls(events[1..]);
    }
  }

  /** A filter keeps nothing of a sequence none of whose elements it accepts. */
  lemma {:induction false} FilterNone<T>(s: seq<T>, p: T -> bool)
    requires forall x :: x in s ==> !p(x)
    ensures Filter(s, p) == []
  {
    if s != [] {
      assert forall x :: x in s[1..] ==> x in s;
      FilterNone(s[1..], p);
    }
  }

  /** Filtering with a weaker condition first changes nothing. */
  lemma {:induction false} FilterFilter<T>(s: seq<T>, p: T -> bool, q: T -> bool)
    requires forall x :: q(x) ==> p(x)
    ensures Filter(Filter(s, p), q) == Filter(s, q)
  {
    if s != [] {
      var head := if p(s[0]) then [s[0]] else [];
      FilterFilter(s[1..], p, q);
      FilterAppend(head, Filter(s[1..], p), q);
      assert Filter(head, q) == (if q(s[0]) then [s[0]] else []) by {
        if p(s[0]) {
          assert Filter(head, q) == (if q(s[0]) then [s[0]] else []) + Filter([], q);
        }
      }
    }
  }
}
