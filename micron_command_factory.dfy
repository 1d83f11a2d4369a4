// MicronCommandFactory (src/Micron/MicronCommandFactory.cs): the positional
// overload of CreateCommand names its values "@0", "@1", ... in a dictionary
// and hands the text and the dictionary to the dictionary overload, which
// passes both to the command cache. MicronCommandCache is not part of this
// model (its source is commented out): a command here is the text and the
// named values the cache would receive.
module MicronCommandFactory {
  import T = Text

  datatype CommandRequest<V> = CommandRequest(text: string, parameters: map<string, V>)

  /** The key of the p-th positional value: $"@{p}". */
  function Key(p: nat): (k: string)
    ensures |k| >= 2 && k[0] == '@'
  {
    "@" + T.NatToString(p)
  }

  /** Distinct positions have distinct keys. */
  lemma KeyInjective(p: nat, q: nat)
    ensures Key(p) == Key(q) <==> p == q
  {
    if Key(p) == Key(q) {
      assert Key(p)[1..] == T.NatToString(p);
      assert Key(q)[1..] == T.NatToString(q);
      T.IntToStringInjective(p, q);
    }
  }

  /** CreateCommand(commandText, IDictionary parameters). */
  function CreateFromDictionary<V>(commandText: string, parameters: map<string, V>): CommandRequest<V>
  {
    CommandRequest(commandText, parameters)
  }

  /** The dictionary the loop builds from the first |values| positional values. */
  function Positional<V>(values: seq<V>): map<string, V>
  {
    if values == [] then map[]
    else Positional(values[..|values| - 1])[Key(|values| - 1) := values[|values| - 1]]
  }

  /** The p-th value is stored under "@p". */
  lemma {:induction false} PositionalLookup<V>(values: seq<V>)
    ensures forall p :: 0 <= p < |values| ==> Key(p) in Positional(values) && Positional(values)[Key(p)] == values[p]
  {
    if values != [] {
      var n := |values| - 1;
      PositionalLookup(values[..n]);
      forall p | 0 <= p < n
        ensures Key(p) != Key(n)
      {
        KeyInjective(p, n);
      }
    }
  }

  /** Every key is "@p" for a position p. */
  lemma {:induction false} PositionalKeys<V>(values: seq<V>)
    ensures forall k :: k in Positional(values) ==> exists p :: 0 <= p < |values| && k == Key(p)
  {
    if values != [] {
      PositionalKeys(values[..|values| - 1]);
    }
  }

  /** No key is written twice, so the dictionary has one entry per value. */
  lemma {:induction false} PositionalSize<V>(values: seq<V>)
    ensures |Positional(values)| == |values|
  {
    if values != [] {
      var n := |values| - 1;
      PositionalSize(values[..n]);
      PositionalKeys(values[..n]);
      NextKeyIsNew(values[..n]);
    }
  }

  /** The key of the next position is not among the keys built so far. */
  lemma NextKeyIsNew<V>(values: seq<V>)
    requires forall k :: k in Positional(values) ==> exists p :: 0 <= p < |values| && k == Key(p)
    ensures Key(|values|) !in Positional(values)
  {
    forall k | k in Positional(values)
      ensures k != Key(|values|)
    {
      var p :| 0 <= p < |values| && k == Key(p);
      KeyInjective(p, |values|);
    }
  }

  /** CreateCommand(commandText, params object[] parameters). Dictionary.Add
      would throw on a key already present; the loop never meets one. */
  method CreateCommand<V>(commandText: string, parameters: seq<V>) returns (r: CommandRequest<V>)
    ensures r == CreateFromDictionary(commandText, Positional(parameters))
    ensures |r.parameters| == |parameters|
    ensures forall p :: 0 <= p < |parameters| ==> Key(p) in r.parameters && r.parameters[Key(p)] == parameters[p]
    ensures forall k :: k in r.parameters ==> exists p :: 0 <= p < |parameters| && k == Key(p)
  {
    var dict: map<string, V> := map[];
    for p := 0 to |parameters|
      invariant dict == Positional(parameters[..p])
    {
      assert Key(p) !in dict by {
        PositionalKeys(parameters[..p]);
        NextKeyIsNew(parameters[..p]);
      }
      assert parameters[..p + 1][..p] == parameters[..p];
      dict := dict[Key(p) := parameters[p]];
    }
    assert parameters[..|parameters|] == parameters;
    PositionalLookup(parameters);
    PositionalKeys(parameters);
    PositionalSize(parameters);
    r := CreateFromDictionary(commandText, dict);
  }
}
