// DbCommandHandlerPipelineDecorator of Micron: every operation hands the inner
// handler the command returned by the configurer instead of the caller's, and
// a transaction hands it the configured copy of its command array. Nothing is
// caught and nothing is logged. The model records each configurer call as a
// Configured event carrying the text of the command it was given.
module DbCommandHandlerPipelineDecorator {
  import opened Common

  /** `new DbCommandConfigurerPipeline(cmd => cmd)`, the factory's default. */
  function Identity(): (configure: Configurer)
    ensures forall c :: configure(c) == Ok(c)
  {
    c => Ok(c)
  }

  /** commandConfigurer.Configure(command). */
  function Configure(configure: Configurer, command: DbCommand): Traced<DbCommand>
  {
    (configure(command), [Configured(command.text)])
  }

  /** `commands.Select(step).ToArray()`: the step on each command in order,
      collecting what it returns; the first step that throws ends the copy. */
  function SelectAll(step: DbCommand -> Traced<DbCommand>, commands: seq<DbCommand>): (r: Traced<seq<DbCommand>>)
    ensures r.0.Ok? <==> forall i :: 0 <= i < |commands| ==> step(commands[i]).0.Ok?
    ensures r.0.Ok? ==> |r.0.value| == |commands|
                        && forall i :: 0 <= i < |commands| ==> step(commands[i]).0 == Ok(r.0.value[i])
    ensures r.0.Fail? ==> exists k :: 0 <= k < |commands| && step(commands[k]).0 == Fail(r.0.error)
                                       && forall i :: 0 <= i < k ==> step(commands[i]).0.Ok?
  {
    if commands == [] then (Ok([]), [])
    else
      var first := step(commands[0]);
      if first.0.Fail? then (Fail(first.0.error), first.1)
      else
        var rest := SelectAll(step, commands[1..]);
        (if rest.0.Fail? then Fail(rest.0.error) else Ok([first.0.value] + rest.0.value), first.1 + rest.1)
  }

  /** Execute, Read, Scalar, String and their async forms:
      inner.X(Configure(command), ...). `inner(c)` is what the inner handler
      does with command c; the callback, behaviour and token of the call go to
      it unchanged. A configurer that throws ends the operation. */
  function Single<T>(configure: Configurer, inner: DbCommand -> Traced<T>, command: DbCommand): (r: Traced<T>)
    ensures configure(command).Ok? ==>
        r == (inner(configure(command).value).0, [Configured(command.text)] + inner(configure(command).value).1)
    ensures configure(command).Fail? ==> r == (Fail(configure(command).error), [Configured(command.text)])
  {
    var configured := Configure(configure, command);
    if configured.0.Fail? then (Fail(configured.0.error), configured.1)
    else
      var result := inner(configured.0.value);
      (result.0, configured.1 + result.1)
  }

  /** Transaction and TransactionAsync: every command configured, in order,
      then the inner transaction on the configured array. */
  function Transaction(configure: Configurer, inner: seq<DbCommand> -> Traced<Unit>, commands: seq<DbCommand>): Traced<Unit>
  {
    var configured := SelectAll(c => Configure(configure, c), commands);
    if configured.0.Fail? then (Fail(configured.0.error), configured.1)
    else
      var result := inner(configured.0.value);
      (result.0, configured.1 + result.1)
  }

  /** The configurer is called once per operation, on the caller's command, and
      with the default configurer the inner handler gets that same command. */
  lemma SingleConfiguresOnce<T>(configure: Configurer, inner: DbCommand -> Traced<T>, command: DbCommand)
    ensures var r := Single(configure, inner, command);
      |Filter(r.1, IsConfigured)| == 1
          + (if configure(command).Ok? then |Filter(inner(configure(command).value).1, IsConfigured)| else 0)
    ensures Single(Identity(), inner, command) == (inner(command).0, [Configured(command.text)] + inner(command).1)
  {
    var r := Single(configure, inner, command);
    if configure(command).Ok? {
      FilterAppend([Configured(command.text)], inner(configure(command).value).1, IsConfigured);
    } else {
      assert Filter(r.1, IsConfigured) == [Configured(command.text)];
    }
  }

  /** The configured copy of an array: one configurer call per command, in
      order, each on that command's text. */
  lemma {:induction false} ConfiguredEach(configure: Configurer, commands: seq<DbCommand>)
    ensures var r := SelectAll(c => Configure(configure, c), commands);
      r.0.Ok? ==> |r.1| == |commands| && forall i :: 0 <= i < |commands| ==> r.1[i] == Configured(commands[i].text)
  {
    if commands != [] && configure(commands[0]).Ok? {
      ConfiguredEach(configure, commands[1..]);
      var rest := SelectAll(c => Configure(configure, c), commands[1..]);
      var r := SelectAll(c => Configure(configure, c), commands);
      if r.0.Ok? {
        assert r.1 == [Configured(commands[0].text)] + rest.1;
        forall i | 0 < i < |commands|
          ensures r.1[i] == Configured(commands[i].text)
        {
          assert r.1[i] == rest.1[i - 1];
          assert commands[1..][i - 1] == commands[i];
        }
      }
    }
  }

  /** A transaction whose commands all configure reaches the inner handler
      with the configured array, of the same length and in the same order, and
      returns what the inner transaction returned. */
  lemma TransactionConfiguresAll(configure: Configurer, inner: seq<DbCommand> -> Traced<Unit>, commands: seq<DbCommand>)
    requires forall i :: 0 <= i < |commands| ==> configure(commands[i]).Ok?
    ensures var configured := SelectAll(c => Configure(configure, c), commands).0.value;
      |configured| == |commands|
      && (forall i :: 0 <= i < |commands| ==> configure(commands[i]) == Ok(configured[i]))
      && Transaction(configure, inner, commands).0 == inner(configured).0
      && Calls(Transaction(configure, inner, commands).1)
         == Calls(SelectAll(c => Configure(configure, c), commands).1) + Calls(inner(configured).1)
  {
    var step := c => Configure(configure, c);
    var selected := SelectAll(step, commands);
    assert forall i :: 0 <= i < |commands| ==> step(commands[i]).0.Ok?;
    FilterAppend(selected.1, inner(selected.0.value).1, IsCall);
  }
}
