// MicronCommandHandlerLoggingDecorator of Micron: the MicronCommand operations
// write the entries DbCommandHandlerLoggingDecorator writes for the DbCommand
// ones, so they are modelled by that module's members. One difference is not
// visible here: the DbCommand form keeps the CommandText it read before the
// inner call, while the MicronCommand form reads CommandText again after it.
// A command is a value in this model, so both read the same text.
//
// Batch is its own: one debug entry, then the inner Batch with a callback of
// the decorator's that writes an information entry for each window before
// calling the caller's callback, if there is one. No entry follows the batch.
module MicronCommandHandlerLoggingDecorator {
  import opened Common

  const ExecutingBatch := "Executing batch."
  const ExecutedBatch := "Executed batch {BatchIndex} affecting {Affected} rows."

  /** One step of the inner Batch: an event of its own, or a call of the
      callback it was given, with the window's index and affected count. */
  datatype Step = Did(event: Event) | Notify(index: int, affected: int)

  predicate IsNotify(s: Step)
  {
    s.Notify?
  }

  /** The events of the steps, where the callback's calls cause `callback(i, a)`. */
  function Play(steps: seq<Step>, callback: (int, int) -> seq<Event>): seq<Event>
  {
    if steps == [] then []
    else
      (match steps[0]
       case Did(e) => [e]
       case Notify(i, a) => callback(i, a))
      + Play(steps[1..], callback)
  }

  /** The caller's callback, or none (`?.Invoke` on null does nothing). */
  function UserCallback(present: bool): (int, int) -> seq<Event>
  {
    (i: int, a: int) => if present then [Callback(i, a)] else []
  }

  /** The decorator's callback: an information entry, then the caller's. */
  function Wrapper(present: bool): (int, int) -> seq<Event>
  {
    (i: int, a: int) => [Log(Information, ExecutedBatch, [Num(i), Num(a)])] + UserCallback(present)(i, a)
  }

  /** Batch(commands, batchSize, callback) and BatchAsync: `inner` is the
      outcome of the inner Batch and its steps; `present` says whether the
      caller passed a callback. */
  function Batch(inner: (Result<Unit>, seq<Step>), present: bool): (r: Traced<Unit>)
    ensures r.0 == inner.0
    ensures |r.1| >= 1 && r.1[0] == Log(Debug, ExecutingBatch, [])
  {
    (inner.0, [Log(Debug, ExecutingBatch, [])] + Play(inner.1, Wrapper(present)))
  }

  predicate IsBatchEntry(e: Event)
  {
    e.Log? && e.template == ExecutedBatch
  }

  /** The decorator's callback adds log entries only: the caller's callback
      is called with each index and count the inner handler reports, in
      order, and everything else the inner handler does is unchanged. */
  lemma {:induction false} WrapperAddsOnlyLogs(steps: seq<Step>, present: bool)
    ensures Calls(Play(steps, Wrapper(present))) == Calls(Play(steps, UserCallback(present)))
  {
    if steps != [] {
      WrapperAddsOnlyLogs(steps[1..], present);
      var w := Play(steps, Wrapper(present));
      var u := Play(steps, UserCallback(present));
      match steps[0]
      case Did(e) =>
        FilterAppend([e], Play(steps[1..], Wrapper(present)), IsCall);
        FilterAppend([e], Play(steps[1..], UserCallback(present)), IsCall);
      case Notify(i, a) =>
        var entry := Log(Information, ExecutedBatch, [Num(i), Num(a)]);
        var user := UserCallback(present)(i, a);
        assert w == [entry] + user + Play(steps[1..], Wrapper(present));
        assert u == user + Play(steps[1..], UserCallback(present));
        CallsBetweenLogs([entry], user + Play(steps[1..], Wrapper(present)), []);
        assert [entry] + (user + Play(steps[1..], Wrapper(present))) + [] == w;
        FilterAppend(user, Play(steps[1..], Wrapper(present)), IsCall);
        FilterAppend(user, Play(steps[1..], UserCallback(present)), IsCall);
    }
  }

  /** The events of one step. */
  function StepEvents(s: Step, callback: (int, int) -> seq<Event>): seq<Event>
  {
    match s
    case Did(e) => [e]
    case Notify(i, a) => callback(i, a)
  }

  lemma PlayCons(s: Step, rest: seq<Step>, callback: (int, int) -> seq<Event>)
    ensures Play([s] + rest, callback) == StepEvents(s, callback) + Play(rest, callback)
  {
    assert ([s] + rest)[1..] == rest;
  }

  /** The batch entries among the events of one step. */
  lemma StepEntries(s: Step, present: bool)
    requires s.Did? ==> !IsBatchEntry(s.event)
    ensures Filter(StepEvents(s, Wrapper(present)), IsBatchEntry)
            == (if s.Notify? then StepEvents(s, Wrapper(false)) else [])
  {
    match s
    case Did(e) =>
      assert Filter([e], IsBatchEntry) == [] + Filter([], IsBatchEntry);
    case Notify(i, a) =>
      var entry := Log(Information, ExecutedBatch, [Num(i), Num(a)]);
      var user := UserCallback(present)(i, a);
      FilterAppend([entry], user, IsBatchEntry);
      assert Filter([entry], IsBatchEntry) == [entry] + Filter([], IsBatchEntry);
      assert Filter(user, IsBatchEntry) == [] by {
        if present {
          assert Filter(user, IsBatchEntry) == Filter(user[1..], IsBatchEntry);
        }
      }
      assert UserCallback(false)(i, a) == [];
      assert StepEvents(s, Wrapper(false)) == [entry] + [];
  }

  /** One information entry per window the inner handler reports, with its
      index and count, in order, whether or not the caller passed a callback
      (provided the inner handler writes no such entry itself). */
  lemma {:induction false} OneEntryPerWindow(steps: seq<Step>, present: bool)
    requires forall k :: 0 <= k < |steps| && steps[k].Did? ==> !IsBatchEntry(steps[k].event)
    ensures Filter(Play(steps, Wrapper(present)), IsBatchEntry) == Play(Filter(steps, IsNotify), Wrapper(false))
  {
    if steps != [] {
      var s := steps[0];
      var rest := steps[1..];
      assert steps == [s] + rest;
      OneEntryPerWindow(rest, present);
      PlayCons(s, rest, Wrapper(present));
      FilterAppend(StepEvents(s, Wrapper(present)), Play(rest, Wrapper(present)), IsBatchEntry);
      StepEntries(s, present);
      if s.Notify? {
        assert Filter(steps, IsNotify) == [s] + Filter(rest, IsNotify);
        PlayCons(s, Filter(rest, IsNotify), Wrapper(false));
      } else {
        assert Filter(steps, IsNotify) == Filter(rest, IsNotify);
      }
    }
  }
}
