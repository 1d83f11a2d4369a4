// TitleTsvRow of the test client (src/Micron.TestClient/DataModel/TitleTsvRow.cs):
// one line of IMDb's title.basics.tsv as nine string properties. FromLine
// splits a line on tabs and assigns the parts to the properties in
// declaration order; ToString joins the properties with tabs.
module TitleTsvRow {
  import opened Common
  import T = Text

  /** The number of properties, and of fields a line needs. */
  const FieldCount := 9

  /** string.Join writes a null argument as the empty string. */
  function Render(field: Option<string>): string
  {
    if field.Some? then field.value else ""
  }

  function RenderAll(fields: seq<Option<string>>): (r: seq<string>)
    ensures |r| == |fields| && forall i :: 0 <= i < |fields| ==> r[i] == Render(fields[i])
  {
    if fields == [] then [] else [Render(fields[0])] + RenderAll(fields[1..])
  }

  /** The properties as parts read from a line: none is null. */
  function Present(parts: seq<string>): (r: seq<Option<string>>)
    ensures |r| == |parts| && forall i :: 0 <= i < |parts| ==> r[i] == Some(parts[i])
  {
    if parts == [] then [] else [Some(parts[0])] + Present(parts[1..])
  }

  /** ToString over the nine properties in declaration order. */
  function Line(fields: seq<Option<string>>): string
    requires |fields| == FieldCount
  {
    T.Join(RenderAll(fields), T.Tab)
  }

  class TitleTsvRow {
    var titleId: string
    var titleType: Option<string>
    var primaryTitle: Option<string>
    var originalTitle: Option<string>
    var isAdult: Option<string>
    var startYear: Option<string>
    var endYear: Option<string>
    var runtimeMinutes: Option<string>
    var genresArray: Option<string>

    /** `new TitleTsvRow()`: TitleId is "", the other properties null. */
    constructor ()
      ensures Fields() == [Some("")] + seq(FieldCount - 1, _ => None)
    {
      titleId := "";
      titleType, primaryTitle, originalTitle := None, None, None;
      isAdult, startYear, endYear := None, None, None;
      runtimeMinutes, genresArray := None, None;
    }

    /** The nine properties in declaration order. */
    function Fields(): (r: seq<Option<string>>)
      reads this
      ensures |r| == FieldCount
    {
      [Some(titleId), titleType, primaryTitle, originalTitle, isAdult,
       startYear, endYear, runtimeMinutes, genresArray]
    }

    /** ToString(): the properties joined with tabs; when none holds a tab,
        the line reads back as the nine properties, a null one as "". */
    function ToString(): (r: string)
      reads this
      ensures (forall i :: 0 <= i < FieldCount ==> T.Tab !in Render(Fields()[i])) ==>
        |T.Split(r, T.Tab)| == FieldCount && Present(T.Split(r, T.Tab)[..FieldCount]) == Present(RenderAll(Fields()))
    {
      if forall i :: 0 <= i < FieldCount ==> T.Tab !in Render(Fields()[i]) then
        RowRoundTrip(Fields());
        Line(Fields())
      else Line(Fields())
    }

    /** FromLine(tsvLine): part p goes to the p-th property, p counting up
        from 0; a line with fewer than nine parts fails with an index out of
        range on the first missing one, and parts after the ninth are ignored. */
    static method FromLine(tsvLine: string) returns (r: Result<TitleTsvRow>)
      ensures r.Ok? <==> |T.Split(tsvLine, T.Tab)| >= FieldCount
      ensures r.Fail? ==> r.error == IndexOutOfRange
      ensures r.Ok? ==> fresh(r.value)
      ensures r.Ok? ==> forall i :: 0 <= i < FieldCount ==> r.value.Fields()[i] == Some(T.Split(tsvLine, T.Tab)[i])
    {
      var row := new TitleTsvRow();
      var parts := T.Split(tsvLine, T.Tab);
      var p := 0;
      if p >= |parts| { return Fail(IndexOutOfRange); }
      row.titleId := parts[p]; p := p + 1;
      if p >= |parts| { return Fail(IndexOutOfRange); }
      row.titleType := Some(parts[p]); p := p + 1;
      if p >= |parts| { return Fail(IndexOutOfRange); }
      row.primaryTitle := Some(parts[p]); p := p + 1;
      if p >= |parts| { return Fail(IndexOutOfRange); }
      row.originalTitle := Some(parts[p]); p := p + 1;
      if p >= |parts| { return Fail(IndexOutOfRange); }
      row.isAdult := Some(parts[p]); p := p + 1;
      if p >= |parts| { return Fail(IndexOutOfRange); }
      row.startYear := Some(parts[p]); p := p + 1;
      if p >= |parts| { return Fail(IndexOutOfRange); }
      row.endYear := Some(parts[p]); p := p + 1;
      if p >= |parts| { return Fail(IndexOutOfRange); }
      row.runtimeMinutes := Some(parts[p]); p := p + 1;
      if p >= |parts| { return Fail(IndexOutOfRange); }
      row.genresArray := Some(parts[p]); p := p + 1;
      return Ok(row);
    }
  }

  /** A line of exactly nine fields is written back as it was read. */
  lemma LineRoundTrip(tsvLine: string)
    requires |T.Split(tsvLine, T.Tab)| == FieldCount
    ensures Line(Present(T.Split(tsvLine, T.Tab)[..FieldCount])) == tsvLine
  {
    var parts := T.Split(tsvLine, T.Tab);
    assert parts[..FieldCount] == parts;
    assert RenderAll(Present(parts)) == parts;
    T.JoinSplit(tsvLine, T.Tab);
  }

  /** Reading back the line of a row whose fields hold no tab gives nine
      parts, the row's fields in order, with a null field read back as "". */
  lemma RowRoundTrip(fields: seq<Option<string>>)
    requires |fields| == FieldCount
    requires forall i :: 0 <= i < FieldCount ==> T.Tab !in Render(fields[i])
    ensures |T.Split(Line(fields), T.Tab)| == FieldCount
    ensures Present(T.Split(Line(fields), T.Tab)[..FieldCount]) == Present(RenderAll(fields))
  {
    T.SplitJoin(RenderAll(fields), T.Tab);
    assert T.Split(Line(fields), T.Tab)[..FieldCount] == RenderAll(fields);
  }
}
