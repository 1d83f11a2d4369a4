// CommandFactory of Micron.SqlClient: the same Execute, Scalar, Query and
// BuildCommand as SqlGateway, with a configuration builder whose OnException
// overloads ignore their filter and store nothing.
module SqlCommandFactory {
  import opened Common
  import G = SqlGateway

  class CommandFactory {
    /** The registered connection factory (null until Connection is called). */
    var connection: Option<nat>

    constructor ()
      ensures connection == None
    {
      connection := None;
    }

    /** Connection(connectionFactory). */
    method Connection(factory: nat)
      modifies this
      ensures connection == Some(factory)
    {
      connection := Some(factory);
    }

    /** OnException(filter) and OnException<TException>(filter): the builder
        is returned and the factory is left as it was. */
    method OnException<F>(filter: F) returns (next: CommandFactory)
      ensures next == this
    {
      next := this;
    }

    /** Execute(commands): the foreach with its expected-affected check. */
    method Execute<V>(commands: seq<G.Command<V>>, d: G.Driver) returns (r: Result<Unit>, events: seq<Event>)
      ensures connection.None? ==> (r, events) == (Fail(NullReference), [])
      ensures connection.Some? ==> (r, events) == G.ExecuteSpec(commands, d)
    {
      if connection.None? {
        return Fail(NullReference), [];
      }
      r, events := G.ExecuteCommands(commands, d);
    }

    /** Scalar(commandText, parameters). */
    method Scalar<V, T>(connect: Result<Unit>, value: Result<V>, convert: V -> Result<T>)
        returns (r: Result<T>, events: seq<Event>)
      ensures connection.None? ==> (r, events) == (Fail(NullReference), [])
      ensures connection.Some? ==> (r, events) == G.ScalarSpec(connect, value, convert)
    {
      if connection.None? {
        return Fail(NullReference), [];
      }
      r, events := G.ExecuteScalar(connect, value, convert);
    }

    /** Query(query). */
    method Query<Rw, T>(connect: Result<Unit>, reader: Result<seq<Rw>>, mapRow: Rw -> Result<T>)
        returns (r: Result<Unit>, yielded: seq<T>)
      ensures connection.None? ==> (r, yielded) == (Fail(NullReference), [])
      ensures connection.Some? ==> (r, yielded) == G.QuerySpec(connect, reader, mapRow)
    {
      if connection.None? {
        return Fail(NullReference), [];
      }
      r, yielded := G.ReadQuery(connect, reader, mapRow);
    }
  }
}
