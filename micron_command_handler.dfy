// MicronCommandHandler of the Micron library: Transaction maps caller commands
// to driver commands, Batch cuts a command stream into windows handed to the
// inner handler's Transaction, and AsyncEnumerableExtensions.InSetsOf groups an
// async stream into sets for BatchAsync.
//
// The inner handler's Transaction is an oracle `tx`: tx(j, window) is the outcome
// of the j-th call, either the affected counts it reports through its callback,
// one per command, in order, or the exception it throws.
module MicronCommandHandler {
  import opened Common

  /** The windows of `s` that Batch hands on: consecutive runs of exactly `n`
      commands and a final remainder; for n < 1 the whole input is one window. */
  function Windows<C>(s: seq<C>, n: int): seq<seq<C>>
    decreases |s|
  {
    if s == [] then []
    else if n < 1 || |s| <= n then [s]
    else [s[..n]] + Windows(s[n..], n)
  }

  /** The windows concatenate back to the input. */
  lemma {:induction false} WindowsFlatten<C>(s: seq<C>, n: int)
    ensures Flatten(Windows(s, n)) == s
    decreases |s|
  {
    var w := Windows(s, n);
    if s != [] && n >= 1 && |s| > n {
      WindowsFlatten(s[n..], n);
      assert w[0] == s[..n] && w[1..] == Windows(s[n..], n);
      assert Flatten(w) == s[..n] + s[n..];
      assert s == s[..n] + s[n..];
    } else if s != [] {
      assert w == [s] && w[1..] == [];
      assert Flatten(w) == s + [];
    }
  }

  /** Every window is non-empty; for n >= 1 all but the last hold exactly n
      commands and the last holds 1..n; for n < 1 there is one window. */
  lemma {:induction false} WindowsShape<C>(s: seq<C>, n: int)
    ensures forall j :: 0 <= j < |Windows(s, n)| ==> Windows(s, n)[j] != []
    ensures n >= 1 ==> forall j :: 0 <= j < |Windows(s, n)| - 1 ==> |Windows(s, n)[j]| == n
    ensures n >= 1 && s != [] ==> 1 <= |Windows(s, n)[|Windows(s, n)| - 1]| <= n
    ensures n < 1 ==> Windows(s, n) == (if s == [] then [] else [s])
    decreases |s|
  {
    if s != [] && n >= 1 && |s| > n {
      WindowsShape(s[n..], n);
      assert Windows(s, n)[1..] == Windows(s[n..], n);
    }
  }

  /** For n >= 1 there are ceil(|s| / n) windows, none for empty input. */
  lemma {:induction false} WindowsCount<C>(s: seq<C>, n: int)
    requires n >= 1
    ensures |Windows(s, n)| == (|s| + n - 1) / n
    decreases |s|
  {
    if s == [] {
      DivModUnique(n - 1, n, 0, n - 1);
    } else if |s| <= n {
      DivModUnique(|s| + n - 1, n, 1, |s| - 1);
    } else {
      WindowsCount(s[n..], n);
      assert |s[n..]| + n - 1 == |s| - 1;
      DivModShift(|s| - 1, n);
    }
  }

  /** The command at position i lands in window i / n at offset i % n. */
  lemma {:induction false} WindowsPosition<C>(s: seq<C>, n: int, i: int)
    requires n >= 1 && 0 <= i < |s|
    ensures i / n < |Windows(s, n)| && i % n < |Windows(s, n)[i / n]|
    ensures Windows(s, n)[i / n][i % n] == s[i]
    decreases |s|
  {
    if |s| > n {
      assert Windows(s, n) == [s[..n]] + Windows(s[n..], n);
      if i >= n {
        WindowsPosition(s[n..], n, i - n);
        DivModShift(i - n, n);
      } else {
        assert i / n == 0 && i % n == i;
      }
    } else {
      assert i / n == 0 && i % n == i;
    }
  }

  /** A full first window is cut off as it stands. */
  lemma WindowsCons<C>(w: seq<C>, tail: seq<C>, n: int)
    requires n >= 1 && |w| == n
    ensures Windows(w + tail, n) == [w] + Windows(tail, n)
  {
    var s := w + tail;
    if tail == [] {
      assert s == w;
    } else {
      assert s[..n] == w && s[n..] == tail;
    }
  }

  /** Full windows in front of the rest are exactly the first windows of the whole. */
  lemma {:induction false} WindowsAppendFull<C>(ws: seq<seq<C>>, rest: seq<C>, n: int)
    requires ws == [] || n >= 1
    requires forall j :: 0 <= j < |ws| ==> |ws[j]| == n
    ensures Windows(Flatten(ws) + rest, n) == ws + Windows(rest, n)
    decreases |ws|
  {
    if ws == [] {
      assert Flatten(ws) + rest == rest && ws + Windows(rest, n) == Windows(rest, n);
    } else {
      var tail := Flatten(ws[1..]) + rest;
      assert Flatten(ws) == ws[0] + Flatten(ws[1..]);
      assert Flatten(ws) + rest == ws[0] + tail;
      WindowsCons(ws[0], tail, n);
      assert forall j :: 0 <= j < |ws[1..]| ==> |ws[1..][j]| == |ws[j + 1]|;
      WindowsAppendFull(ws[1..], rest, n);
      assert ws == [ws[0]] + ws[1..];
    }
  }

  /** Full windows handed on so far are the first windows of the plan. */
  lemma HandedArePlanned<C>(handed: seq<seq<C>>, rest: seq<C>, n: int)
    requires handed == [] || n >= 1
    requires forall j :: 0 <= j < |handed| ==> |handed[j]| == n
    ensures var planned := Windows(Flatten(handed) + rest, n);
      |handed| <= |planned| && handed == planned[..|handed|]
  {
    WindowsAppendFull(handed, rest, n);
  }

  /** Full windows followed by a short remainder: the remainder, if any, is
      the last window of the plan. */
  lemma PlanEndsWith<C>(handed: seq<seq<C>>, batch: seq<C>, n: int)
    requires handed == [] || n >= 1
    requires forall j :: 0 <= j < |handed| ==> |handed[j]| == n
    requires n >= 1 ==> |batch| < n
    ensures Windows(Flatten(handed) + batch, n) == handed + (if batch == [] then [] else [batch])
  {
    WindowsAppendFull(handed, batch, n);
  }

  /** Callback j reports window j's index and the total of its affected
      counts, added up in unchecked `int` arithmetic, for every window whose
      Transaction succeeded. */
  predicate Reported<C>(tx: (nat, seq<C>) -> Result<seq<int>>, handed: seq<seq<C>>, callbacks: seq<Event>)
  {
    |callbacks| <= |handed|
    && forall j :: 0 <= j < |callbacks| ==>
         tx(j, handed[j]).Ok? && callbacks[j] == Callback(j, WrappedSum(tx(j, handed[j]).value))
  }

  /** The outcome of handing `handed`, a prefix of the `planned` windows, to the
      inner Transaction one by one: callback j reports window j's index and the
      wrapped total of its affected counts; the first failing Transaction ends the run
      with its exception; on success every planned window was handed on. */
  predicate Ran<C(==)>(tx: (nat, seq<C>) -> Result<seq<int>>, planned: seq<seq<C>>,
                   handed: seq<seq<C>>, callbacks: seq<Event>, r: Result<Unit>)
  {
    |handed| <= |planned| && handed == planned[..|handed|]
    && Reported(tx, handed, callbacks)
    && (r.Ok? ==> handed == planned && |callbacks| == |handed|)
    && (r.Fail? ==> |handed| == |callbacks| + 1 && tx(|callbacks|, handed[|callbacks|]) == Fail(r.error))
  }

  /** Ran is deterministic: the oracle and the plan fix the whole outcome. */
  lemma RanIsDeterministic<C>(tx: (nat, seq<C>) -> Result<seq<int>>, planned: seq<seq<C>>,
                              h1: seq<seq<C>>, c1: seq<Event>, r1: Result<Unit>,
                              h2: seq<seq<C>>, c2: seq<Event>, r2: Result<Unit>)
    requires Ran(tx, planned, h1, c1, r1) && Ran(tx, planned, h2, c2, r2)
    ensures h1 == h2 && c1 == c2 && r1 == r2
  {
    if |c1| != |c2| {
      assert false;
    }
    assert c1 == c2;
    if r1.Fail? && r2.Fail? {
      assert h1 == planned[..|c1| + 1] == h2;
      assert Fail(r1.error) == tx(|c1|, h1[|c1|]) == Fail(r2.error);
    } else if r1.Fail? || r2.Fail? {
      assert false;
    } else {
      assert r1.value.Unit? && r2.value.Unit?;
    }
  }

  /** Taking the next command into the open window keeps the handed windows
      and the open one a prefix of the commands, whether or not the window is
      then handed on. */
  lemma TakeNext<C>(handed: seq<seq<C>>, batch: seq<C>, commands: seq<C>, i: int)
    requires 0 <= i < |commands| && Flatten(handed) + batch == commands[..i]
    ensures Flatten(handed) + (batch + [commands[i]]) == commands[..i + 1]
    ensures Flatten(handed + [batch + [commands[i]]]) + [] == commands[..i + 1]
    ensures commands == commands[..i + 1] + commands[i + 1..]
  {
    assert commands[..i + 1] == commands[..i] + [commands[i]];
    FlattenAppend(handed, batch + [commands[i]]);
  }

  /** A full window whose Transaction fails ends the run with its exception. */
  lemma FailedWindowRan<C>(commands: seq<C>, batchSize: int, tx: (nat, seq<C>) -> Result<seq<int>>,
                               handed: seq<seq<C>>, callbacks: seq<Event>, rest: seq<C>, e: Exn)
    requires batchSize >= 1 && commands == Flatten(handed) + rest
    requires forall j :: 0 <= j < |handed| ==> |handed[j]| == batchSize
    requires |handed| == |callbacks| + 1 && tx(|callbacks|, handed[|callbacks|]) == Fail(e)
    requires Reported(tx, handed, callbacks)
    ensures Ran(tx, Windows(commands, batchSize), handed, callbacks, Fail(e))
  {
    HandedArePlanned(handed, rest, batchSize);
  }

  /** Batch(commands, batchSize, callback): a window is handed on as soon as it
      holds batchSize commands, and the remainder at the end. */
  method Batch<C(==)>(commands: seq<C>, batchSize: int, tx: (nat, seq<C>) -> Result<seq<int>>)
    returns (r: Result<Unit>, handed: seq<seq<C>>, callbacks: seq<Event>)
    ensures Ran(tx, Windows(commands, batchSize), handed, callbacks, r)
  {
    var batchIndex: nat := 0;
    var batch: seq<C> := [];
    handed, callbacks := [], [];
    var i := 0;
    while i < |commands|
      invariant 0 <= i <= |commands|
      invariant |handed| == batchIndex && |callbacks| == batchIndex
      invariant Flatten(handed) + batch == commands[..i]
      invariant forall j :: 0 <= j < |handed| ==> |handed[j]| == batchSize
      invariant batchSize >= 1 ==> |batch| < batchSize
      invariant batchSize < 1 ==> handed == []
      invariant Reported(tx, handed, callbacks)
    {
      TakeNext(handed, batch, commands, i);
      batch := batch + [commands[i]];
      if |batch| == batchSize {
        var outcome := tx(batchIndex, batch);
        handed := handed + [batch];
        if outcome.Fail? {
          assert commands == Flatten(handed) + commands[i + 1..];
          FailedWindowRan(commands, batchSize, tx, handed, callbacks, commands[i + 1..], outcome.error);
          return Fail(outcome.error), handed, callbacks;
        }
        callbacks := callbacks + [Callback(batchIndex, WrappedSum(outcome.value))];
        batch := [];
        batchIndex := batchIndex + 1;
      }
      i := i + 1;
    }
    assert commands[..i] == commands;
    r, handed, callbacks := SendRemainder(commands, batchSize, tx, handed, callbacks, batch);
  }

  /** The end of Batch: the commands left over after the last full window are
      handed on as one more window, if there are any. */
  method SendRemainder<C(==)>(commands: seq<C>, batchSize: int, tx: (nat, seq<C>) -> Result<seq<int>>,
                              full: seq<seq<C>>, reported: seq<Event>, batch: seq<C>)
    returns (r: Result<Unit>, handed: seq<seq<C>>, callbacks: seq<Event>)
    requires |full| == |reported| && Flatten(full) + batch == commands
    requires forall j :: 0 <= j < |full| ==> |full[j]| == batchSize
    requires batchSize >= 1 ==> |batch| < batchSize
    requires batchSize < 1 ==> full == []
    requires Reported(tx, full, reported)
    ensures Ran(tx, Windows(commands, batchSize), handed, callbacks, r)
  {
    PlanEndsWith(full, batch, batchSize);
    handed, callbacks := full, reported;
    if |batch| > 0 {
      var outcome := tx(|full|, batch);
      handed := handed + [batch];
      if outcome.Fail? {
        return Fail(outcome.error), handed, callbacks;
      }
      callbacks := callbacks + [Callback(|full|, WrappedSum(outcome.value))];
    }
    r := Ok(Unit);
  }

  /** The sets yielded before the first point where cancellation is observed:
      `cancelled(k)` is the state of the token when set k is about to be yielded. */
  function UntilCancelled<T>(sets: seq<T>, cancelled: nat -> bool, from: nat): (r: seq<T>)
    requires from <= |sets|
    ensures from + |r| <= |sets| && r == sets[from..from + |r|]
    ensures forall k :: from <= k < from + |r| ==> !cancelled(k)
    ensures from + |r| < |sets| ==> cancelled(from + |r|)
    decreases |sets| - from
  {
    if from == |sets| || cancelled(from) then []
    else [sets[from]] + UntilCancelled(sets, cancelled, from + 1)
  }

  /** InSetsOf(source, setSize, ct): elements are grouped by the key
      Index / setSize (C# division); the groups come out in order of their first
      element, so they are the consecutive runs of |setSize| elements. A zero set
      size divides by zero as soon as there is an element. */
  function InSetsOf<T>(source: seq<T>, setSize: int, cancelled: nat -> bool): (r: Result<seq<seq<T>>>)
    ensures r.Fail? <==> source != [] && setSize == 0
    ensures r.Fail? ==> r.error == DivideByZero
  {
    if source == [] then Ok([])
    else if setSize == 0 then Fail(DivideByZero)
    else Ok(UntilCancelled(Windows(source, Abs(setSize)), cancelled, 0))
  }

  /** Without cancellation, element i is in the set numbered by the magnitude of
      its key i / setSize (C# division), at offset i % |setSize|, and the sets
      concatenate back to the source. */
  lemma InSetsOfGrouping<T>(source: seq<T>, setSize: int, i: int)
    requires setSize != 0 && 0 <= i < |source|
    ensures Abs(CsDiv(i, setSize)) == i / Abs(setSize)
    ensures var r := InSetsOf(source, setSize, _ => false);
      r.Ok? && Flatten(r.value) == source
      && i / Abs(setSize) < |r.value| && i % Abs(setSize) < |r.value[i / Abs(setSize)]|
      && r.value[i / Abs(setSize)][i % Abs(setSize)] == source[i]
  {
    var m := Abs(setSize);
    var ws := Windows(source, m);
    KeyMagnitude(i, setSize);
    NeverCancelled(ws);
    assert InSetsOf(source, setSize, _ => false) == Ok(ws);
    WindowsFlatten(source, m);
    WindowsPosition(source, m, i);
  }

  /** The key of a non-negative index has the magnitude of the Euclidean
      quotient by |setSize|. */
  lemma KeyMagnitude(i: int, setSize: int)
    requires setSize != 0 && 0 <= i
    ensures Abs(CsDiv(i, setSize)) == i / Abs(setSize)
  {
    var q := i / Abs(setSize);
    assert q >= 0;
    assert CsDiv(i, setSize) == q || CsDiv(i, setSize) == -q;
  }

  /** A token that is never cancelled lets every set through. */
  lemma NeverCancelled<T>(sets: seq<T>)
    ensures UntilCancelled(sets, _ => false, 0) == sets
  {
    var r := UntilCancelled(sets, _ => false, 0);
    assert |r| == |sets|;
  }

  /** Once cancellation is observed no further set is yielded: the result is the
      longest prefix of the sets before the first cancelled point. */
  lemma InSetsOfStopsOnCancellation<T>(source: seq<T>, setSize: int, cancelled: nat -> bool)
    requires setSize >= 1
    ensures var r := InSetsOf(source, setSize, cancelled);
      r.Ok? && r.value == Windows(source, setSize)[..|r.value|]
      && (forall k :: 0 <= k < |r.value| ==> !cancelled(k))
      && (|r.value| < |Windows(source, setSize)| ==> cancelled(|r.value|))
  {
  }

  /** For batchSize >= 1, BatchAsync's sets are Batch's windows; for a negative
      batchSize, Batch sends one window while InSetsOf cuts sets of |batchSize|. */
  lemma BatchAndBatchAsyncWindows<C>(commands: seq<C>, batchSize: int)
    ensures batchSize >= 1 ==> InSetsOf(commands, batchSize, _ => false) == Ok(Windows(commands, batchSize))
    ensures batchSize < 0 && |commands| > -batchSize ==>
      InSetsOf(commands, batchSize, _ => false).Ok?
      && |InSetsOf(commands, batchSize, _ => false).value| > 1 && |Windows(commands, batchSize)| == 1
  {
    if batchSize >= 1 || batchSize < 0 {
      assert UntilCancelled(Windows(commands, Abs(batchSize)), _ => false, 0) == Windows(commands, Abs(batchSize));
    }
  }

  /** BatchAsync(commands, batchSize, ct, callback): the token is not passed to
      InSetsOf, so no set is skipped for cancellation. */
  method BatchAsync<C(==)>(commands: seq<C>, batchSize: int, tx: (nat, seq<C>) -> Result<seq<int>>)
    returns (r: Result<Unit>, handed: seq<seq<C>>, callbacks: seq<Event>)
    ensures InSetsOf(commands, batchSize, _ => false).Fail? ==>
      r == Fail(DivideByZero) && handed == [] && callbacks == []
    ensures InSetsOf(commands, batchSize, _ => false).Ok? ==>
      Ran(tx, InSetsOf(commands, batchSize, _ => false).value, handed, callbacks, r)
  {
    handed, callbacks := [], [];
    var sets := InSetsOf(commands, batchSize, _ => false);
    if sets.Fail? {
      return Fail(sets.error), handed, callbacks;
    }
    var batchIndex: nat := 0;
    while batchIndex < |sets.value|
      invariant batchIndex <= |sets.value|
      invariant handed == sets.value[..batchIndex] && |callbacks| == batchIndex
      invariant Reported(tx, handed, callbacks)
    {
      var batch := sets.value[batchIndex];
      var outcome := tx(batchIndex, batch);
      handed := handed + [batch];
      if outcome.Fail? {
        return Fail(outcome.error), handed, callbacks;
      }
      callbacks := callbacks + [Callback(batchIndex, WrappedSum(outcome.value))];
      batchIndex := batchIndex + 1;
    }
    r := Ok(Unit);
  }

  /** The ids of the driver commands disposed in a trace, in order. */
  function DisposedIds(events: seq<Event>): seq<nat>
  {
    if events == [] then []
    else (if events[0].Disposed? then [events[0].id] else []) + DisposedIds(events[1..])
  }

  /** The trace ends with the connection closed. */
  predicate Closed(events: seq<Event>)
  {
    events != [] && events[|events| - 1] == Close
  }

  lemma {:induction false} DisposedIdsAppend(a: seq<Event>, b: seq<Event>)
    ensures DisposedIds(a + b) == DisposedIds(a) + DisposedIds(b)
  {
    if a == [] {
      assert a + b == b;
    } else {
      assert (a + b)[0] == a[0] && (a + b)[1..] == a[1..] + b;
      DisposedIdsAppend(a[1..], b);
    }
  }

  /** One enumeration of the lazy `commands.Select(...)`: every element creates
      a fresh driver command, numbered from `nextId`. */
  method EnumerateCommands(count: nat, nextId: nat) returns (ids: seq<nat>, events: seq<Event>)
    ensures ids == Range(nextId, count)
    ensures DisposedIds(events) == [] && !Closed(events)
  {
    ids, events := [], [];
    while |ids| < count
      invariant |ids| <= count
      invariant ids == Range(nextId, |ids|)
      invariant DisposedIds(events) == [] && !Closed(events)
    {
      var id := nextId + |ids|;
      DisposedIdsAppend(events, [Created(id)]);
      events := events + [Created(id)];
      ids := ids + [id];
    }
  }

  /** The disposal loop `foreach (var cmd in dbCommands) cmd.Dispose()`: a second
      enumeration of the lazy Select, so each command it disposes is one it has
      just created. */
  method DisposeEnumerated(count: nat, nextId: nat) returns (events: seq<Event>)
    ensures DisposedIds(events) == Range(nextId, count) && !Closed(events)
  {
    events := [];
    var k := 0;
    while k < count
      invariant k <= count
      invariant DisposedIds(events) == Range(nextId, k) && !Closed(events)
    {
      DisposedIdsAppend(events, [Created(nextId + k)]);
      events := events + [Created(nextId + k)];
      DisposedIdsAppend(events, [Disposed(nextId + k)]);
      events := events + [Disposed(nextId + k)];
      k := k + 1;
    }
  }

  /** Transaction(commands, callback) as written: ToArray enumerates the lazy
      Select once, creating the commands handed to the inner Transaction; the
      disposal loop enumerates it again; on failure the exception propagates and
      neither the loop nor Close runs. */
  method Transaction(count: nat, nextId: nat, inner: seq<nat> -> Result<Unit>)
    returns (r: Result<Unit>, handed: seq<nat>, events: seq<Event>)
    ensures handed == Range(nextId, count) && r == inner(handed)
    ensures DisposedIds(events) == (if r.Ok? then Range(nextId + count, count) else [])
    ensures Closed(events) <==> r.Ok?
  {
    var created;
    handed, created := EnumerateCommands(count, nextId);
    DisposedIdsAppend([Open], created);
    events := [Open] + created;
    r := inner(handed);
    if r.Fail? {
      return;
    }
    var disposal := DisposeEnumerated(count, nextId + count);
    DisposedIdsAppend(events, disposal);
    events := events + disposal;
    DisposedIdsAppend(events, [Close]);
    events := events + [Close];
  }

  /** As written, none of the commands the inner Transaction executed is ever disposed. */
  lemma ExecutedCommandsNeverDisposed(count: nat, nextId: nat, r: Result<Unit>, handed: seq<nat>, events: seq<Event>)
    requires handed == Range(nextId, count)
    requires DisposedIds(events) == (if r.Ok? then Range(nextId + count, count) else [])
    ensures forall k :: 0 <= k < |handed| ==> handed[k] !in DisposedIds(events)
  {
  }

  /** The evidently intended Transaction: the array handed to the inner handler
      is the one disposed afterwards, so exactly the executed commands are disposed. */
  method TransactionDisposingExecuted(count: nat, nextId: nat, inner: seq<nat> -> Result<Unit>)
    returns (r: Result<Unit>, handed: seq<nat>, events: seq<Event>)
    ensures handed == Range(nextId, count) && r == inner(handed)
    ensures DisposedIds(events) == (if r.Ok? then handed else [])
    ensures Closed(events) <==> r.Ok?
  {
    var created;
    handed, created := EnumerateCommands(count, nextId);
    DisposedIdsAppend([Open], created);
    events := [Open] + created;
    r := inner(handed);
    if r.Fail? {
      return;
    }
    var disposal := DisposeArray(handed);
    DisposedIdsAppend(events, disposal);
    events := events + disposal;
    DisposedIdsAppend(events, [Close]);
    events := events + [Close];
  }

  /** `foreach (var cmd in dbCommands) cmd.Dispose()` over an array: each
      element is disposed once, in order. */
  method DisposeArray(ids: seq<nat>) returns (events: seq<Event>)
    ensures DisposedIds(events) == ids && !Closed(events)
  {
    events := [];
    var k := 0;
    while k < |ids|
      invariant k <= |ids|
      invariant DisposedIds(events) == ids[..k] && !Closed(events)
    {
      DisposedIdsAppend(events, [Disposed(ids[k])]);
      events := events + [Disposed(ids[k])];
      assert ids[..k + 1] == ids[..k] + [ids[k]];
      k := k + 1;
    }
    assert ids[..k] == ids;
  }
}
