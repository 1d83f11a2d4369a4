// TitleBasicsDbRow of the test client (src/Micron.TestClient/DbModel/TitleDbRow.cs):
// the database form of a title.basics line. From converts a TSV row: the text
// fields are copied, IsAdult becomes 1 or 0, and the two years and the
// runtime become null for IMDb's \N marker and Convert.ToInt32 of the field
// otherwise. TableColumns describes the table the rows are inserted into.
module TitleDbRow {
  import opened Common
  import T = Text
  import N = ImdbNull
  import Tsv = TitleTsvRow
  import M = MicronTypeMap

  datatype TitleBasicsDbRow = TitleBasicsDbRow(
    titleId: string,
    titleType: Option<string>,
    primaryTitle: Option<string>,
    originalTitle: Option<string>,
    isAdult: int,
    startYear: Option<int>,
    endYear: Option<int>,
    runtimeMinutes: Option<int>,
    genresCsv: Option<string>)

  /** ImdbNull.IsImdbNull(field) ? null : Convert.ToInt32(field). A null field
      is not the marker and converts to 0. */
  function NullableInt(field: Option<string>): (r: Result<Option<int>>)
    ensures N.IsImdbNull(field) ==> r == Ok(None)
    ensures !N.IsImdbNull(field) ==> r.Fail? || r.value.Some?
    ensures field.None? ==> r == Ok(Some(0))
    ensures forall i :: T.InInt32(i) && field == Some(T.IntToString(i)) ==> r == Ok(Some(i))
  {
    assert forall i :: T.InInt32(i) && field == Some(T.IntToString(i)) ==> T.ParseInt32(field) == Ok(i) by {
      forall i | T.InInt32(i) && field == Some(T.IntToString(i))
        ensures T.ParseInt32(field) == Ok(i)
      {
        T.ParsePrinted(i);
      }
    }
    if N.IsImdbNull(field) then Ok(None)
    else
      var v := T.ParseInt32(field);
      if v.Fail? then Fail(v.error) else Ok(Some(v.value))
  }

  /** From over the nine TSV properties in declaration order; the conversions
      run in that order, so the first field that fails to convert decides the
      exception. */
  function FromFields(fields: seq<Option<string>>): (r: Result<TitleBasicsDbRow>)
    requires |fields| == Tsv.FieldCount && fields[0].Some?
    ensures r.Ok? <==> NullableInt(fields[5]).Ok? && NullableInt(fields[6]).Ok? && NullableInt(fields[7]).Ok?
    ensures r.Fail? ==> r.error == (if NullableInt(fields[5]).Fail? then NullableInt(fields[5]).error
                                    else if NullableInt(fields[6]).Fail? then NullableInt(fields[6]).error
                                    else NullableInt(fields[7]).error)
    ensures r.Ok? ==> r.value.titleId == fields[0].value && r.value.titleType == fields[1]
                      && r.value.primaryTitle == fields[2] && r.value.originalTitle == fields[3]
                      && r.value.genresCsv == fields[8]
    ensures r.Ok? ==> (r.value.isAdult == 1 <==> fields[4] == Some("1")) && (r.value.isAdult == 0 <==> fields[4] != Some("1"))
    ensures r.Ok? ==> (r.value.startYear.None? <==> N.IsImdbNull(fields[5]))
                      && (r.value.endYear.None? <==> N.IsImdbNull(fields[6]))
                      && (r.value.runtimeMinutes.None? <==> N.IsImdbNull(fields[7]))
  {
    var startYear := NullableInt(fields[5]);
    if startYear.Fail? then Fail(startYear.error)
    else
      var endYear := NullableInt(fields[6]);
      if endYear.Fail? then Fail(endYear.error)
      else
        var runtimeMinutes := NullableInt(fields[7]);
        if runtimeMinutes.Fail? then Fail(runtimeMinutes.error)
        else
          Ok(TitleBasicsDbRow(
            fields[0].value, fields[1], fields[2], fields[3],
            if fields[4] == Some("1") then 1 else 0,
            startYear.value, endYear.value, runtimeMinutes.value,
            fields[8]))
  }

  /** TitleBasicsDbRow.From(tsvRow): the TSV row's text properties are
      copied, and the conversion fails exactly when a number does not convert. */
  function From(tsvRow: Tsv.TitleTsvRow): (r: Result<TitleBasicsDbRow>)
    reads tsvRow
    ensures r.Ok? <==> NullableInt(tsvRow.startYear).Ok? && NullableInt(tsvRow.endYear).Ok?
                       && NullableInt(tsvRow.runtimeMinutes).Ok?
    ensures r.Ok? ==> r.value.titleId == tsvRow.titleId && r.value.titleType == tsvRow.titleType
                      && r.value.primaryTitle == tsvRow.primaryTitle && r.value.originalTitle == tsvRow.originalTitle
                      && r.value.genresCsv == tsvRow.genresArray
  {
    FromFields(tsvRow.Fields())
  }

  /** A TSV row whose numbers are written as Int32.ToString writes them comes
      through From with those numbers. */
  lemma FromReadsPrintedNumbers(fields: seq<Option<string>>, startYear: int, endYear: int, runtimeMinutes: int)
    requires |fields| == Tsv.FieldCount && fields[0].Some?
    requires T.InInt32(startYear) && T.InInt32(endYear) && T.InInt32(runtimeMinutes)
    requires fields[5] == Some(T.IntToString(startYear)) && fields[6] == Some(T.IntToString(endYear))
    requires fields[7] == Some(T.IntToString(runtimeMinutes))
    ensures FromFields(fields).Ok?
    ensures FromFields(fields).value.startYear == Some(startYear)
    ensures FromFields(fields).value.endYear == Some(endYear)
    ensures FromFields(fields).value.runtimeMinutes == Some(runtimeMinutes)
  {
    assert NullableInt(fields[5]) == Ok(Some(startYear));
    assert NullableInt(fields[6]) == Ok(Some(endYear));
    assert NullableInt(fields[7]) == Ok(Some(runtimeMinutes));
  }

  /** string.Join writes a null int? as the empty string. */
  function RenderInt(value: Option<int>): string
  {
    if value.Some? then T.IntToString(value.value) else ""
  }

  /** The nine properties as ToString writes them, in property order. */
  function Parts(row: TitleBasicsDbRow): (r: seq<string>)
    ensures |r| == 9
  {
    [row.titleId, Tsv.Render(row.titleType), Tsv.Render(row.primaryTitle), Tsv.Render(row.originalTitle),
     T.IntToString(row.isAdult), RenderInt(row.startYear), RenderInt(row.endYear),
     RenderInt(row.runtimeMinutes), Tsv.Render(row.genresCsv)]
  }

  /** ToString(): the properties joined with tabs, so that a row with
      tab-free text writes a line that splits back into its nine parts. */
  function ToString(row: TitleBasicsDbRow): (r: string)
    ensures TabFree(row) ==> T.Split(r, T.Tab) == Parts(row)
  {
    if TabFree(row) then
      PartsSplitBack(row);
      T.Join(Parts(row), T.Tab)
    else T.Join(Parts(row), T.Tab)
  }

  /** No text property of the row holds a tab. */
  predicate TabFree(row: TitleBasicsDbRow)
  {
    T.Tab !in row.titleId && T.Tab !in Tsv.Render(row.titleType)
    && T.Tab !in Tsv.Render(row.primaryTitle) && T.Tab !in Tsv.Render(row.originalTitle)
    && T.Tab !in Tsv.Render(row.genresCsv)
  }

  lemma NumberHasNoTab(i: int)
    ensures T.Tab !in T.IntToString(i)
  {
    var s := T.IntToString(i);
    forall k | 0 <= k < |s|
      ensures s[k] != T.Tab
    {
      assert T.IsDigit(s[k]) || s[k] == '-';
    }
  }

  /** The nine parts joined with tabs split back into the nine parts. */
  lemma PartsSplitBack(row: TitleBasicsDbRow)
    requires TabFree(row)
    ensures T.Split(T.Join(Parts(row), T.Tab), T.Tab) == Parts(row)
  {
    NumberHasNoTab(row.isAdult);
    if row.startYear.Some? { NumberHasNoTab(row.startYear.value); }
    if row.endYear.Some? { NumberHasNoTab(row.endYear.value); }
    if row.runtimeMinutes.Some? { NumberHasNoTab(row.runtimeMinutes.value); }
    T.SplitJoin(Parts(row), T.Tab);
  }

  /** A number ToString writes for an int? property reads back with
      Convert.ToInt32; a null one is written as "", which does not convert. */
  lemma RenderIntReadsBack(value: Option<int>)
    requires value.Some? ==> T.InInt32(value.value)
    ensures value.Some? ==> T.ParseInt32(Some(RenderInt(value))) == Ok(value.value)
    ensures value.None? ==> T.ParseInt32(Some(RenderInt(value))) == Fail(Format)
  {
    if value.Some? {
      T.ParsePrinted(value.value);
    }
  }

  datatype TableColumn = TableColumn(isPrimaryKey: bool, name: string, runtimeType: M.ClrType, isNullable: bool)

  /** The column names: StringFns.ToSnakeCase of each property name. */
  const ColumnNames: seq<string> := [
    "title_id", "title_type", "primary_title", "original_title", "is_adult",
    "start_year", "end_year", "runtime_minutes", "genres_csv"
  ]

  /** TableColumns() as written: one column per property, in property order;
      the first is the primary key, and runtime_minutes is marked not nullable. */
  function TableColumns(): (r: seq<TableColumn>)
    ensures |r| == |ColumnNames| && forall i :: 0 <= i < |r| ==> r[i].name == ColumnNames[i]
    ensures forall i :: 0 <= i < |r| ==> (r[i].isPrimaryKey <==> i == 0)
    ensures !r[7].isNullable
  {
    [TableColumn(true, ColumnNames[0], M.StringType, false),
     TableColumn(false, ColumnNames[1], M.StringType, true),
     TableColumn(false, ColumnNames[2], M.StringType, true),
     TableColumn(false, ColumnNames[3], M.StringType, true),
     TableColumn(false, ColumnNames[4], M.Plain(M.Bool), false),
     TableColumn(false, ColumnNames[5], M.Plain(M.Int), true),
     TableColumn(false, ColumnNames[6], M.Plain(M.Int), true),
     TableColumn(false, ColumnNames[7], M.Plain(M.Int), false),
     TableColumn(false, ColumnNames[8], M.StringType, false)]
  }

  /** Which properties of a row are null, in property order. */
  function NullMask(row: TitleBasicsDbRow): (r: seq<bool>)
    ensures |r| == 9
  {
    [false, row.titleType.None?, row.primaryTitle.None?, row.originalTitle.None?, false,
     row.startYear.None?, row.endYear.None?, row.runtimeMinutes.None?, row.genresCsv.None?]
  }

  /** A table accepts a row when every null property sits in a nullable
      column; the insert of a null into a NOT NULL column fails. */
  predicate Admits(columns: seq<TableColumn>, row: TitleBasicsDbRow)
    requires |columns| == 9
  {
    forall i :: 0 <= i < 9 ==> NullMask(row)[i] ==> columns[i].isNullable
  }

  /** As written, any line whose runtime is \N converts to a row the table
      refuses. */
  lemma MarkerRuntimeRefused(fields: seq<Option<string>>)
    requires |fields| == Tsv.FieldCount && fields[0].Some?
    requires FromFields(fields).Ok? && fields[7] == Some(N.NullString)
    ensures !Admits(TableColumns(), FromFields(fields).value)
  {
    assert NullMask(FromFields(fields).value)[7];
  }

  /** One such line: a title whose years and runtime are all the marker. */
  lemma LineWithoutRuntime()
    ensures var fields := [Some("tt9999999"), Some("movie"), Some("A Title"), Some("A Title"),
                           Some("0"), Some(N.NullString), Some(N.NullString), Some(N.NullString),
                           Some("Drama")];
      FromFields(fields).Ok? && !Admits(TableColumns(), FromFields(fields).value)
  {
    var fields := [Some("tt9999999"), Some("movie"), Some("A Title"), Some("A Title"),
                   Some("0"), Some(N.NullString), Some(N.NullString), Some(N.NullString),
                   Some("Drama")];
    MarkerRuntimeRefused(fields);
  }

  /** TableColumns() with runtime_minutes nullable like the two years. */
  function TableColumnsCorrected(): (r: seq<TableColumn>)
    ensures |r| == |ColumnNames| && forall i :: 0 <= i < |r| ==> r[i].name == ColumnNames[i]
    ensures forall i :: 0 <= i < |r| ==> (r[i].isPrimaryKey <==> i == 0)
    ensures forall i :: 0 <= i < |r| && i != 7 ==> r[i] == TableColumns()[i]
  {
    TableColumns()[7 := TableColumn(false, ColumnNames[7], M.Plain(M.Int), true)]
  }

  /** Every row From makes of a parsed line (no property null) fits the
      corrected table. */
  lemma CorrectedAdmitsParsedRows(fields: seq<Option<string>>)
    requires |fields| == Tsv.FieldCount
    requires forall i :: 0 <= i < Tsv.FieldCount ==> fields[i].Some?
    requires FromFields(fields).Ok?
    ensures Admits(TableColumnsCorrected(), FromFields(fields).value)
  {
    var row := FromFields(fields).value;
    assert fields[1].Some? && fields[2].Some? && fields[3].Some? && fields[8].Some?;
    assert row.titleType.Some? && row.genresCsv.Some?;
  }
}
