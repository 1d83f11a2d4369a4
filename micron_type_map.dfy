// System.Data.DbType, as the numbers the Micron sources name: an enum value is
// its number, and a cast between enums keeps the number.
module DbTypes {
  import T = Text

  type DbType = int

  const Binary: DbType := 1
  const Boolean: DbType := 3
  const Decimal: DbType := 7
  const Double: DbType := 8
  const Guid: DbType := 9
  const Int32: DbType := 11
  const Int64: DbType := 12
  const Object: DbType := 13
  const String: DbType := 16
  const Time: DbType := 17
  const StringFixedLength: DbType := 23
  const DateTimeOffset: DbType := 27

  /** The member name of a DbType value this model names; other values print
      as their number, as Enum.ToString does for an unnamed value. */
  function Name(t: DbType): string
  {
    if t == Binary then "Binary"
    else if t == Boolean then "Boolean"
    else if t == Decimal then "Decimal"
    else if t == Double then "Double"
    else if t == Guid then "Guid"
    else if t == Int32 then "Int32"
    else if t == Int64 then "Int64"
    else if t == Object then "Object"
    else if t == String then "String"
    else if t == Time then "Time"
    else if t == StringFixedLength then "StringFixedLength"
    else if t == DateTimeOffset then "DateTimeOffset"
    else T.IntToString(t)
  }
}

// MicronParameterDataType (src/Micron/MicronParameterDataType.cs): eleven
// named values, each numbered as the System.Data.DbType member of that name.
// Like any C# enum it can hold other numbers, such as its default, 0.
module MicronParameterDataType {
  import T = Text

  type DataType = int

  const Binary: DataType := 1
  const Boolean: DataType := 3
  const Decimal: DataType := 7
  const Double: DataType := 8
  const Guid: DataType := 9
  const Int32: DataType := 11
  const Int64: DataType := 12
  const Object: DataType := 13
  const String: DataType := 16
  const StringFixedLength: DataType := 23
  const DateTimeOffset: DataType := 27

  predicate IsDefined(d: DataType)
  {
    d in {Binary, Boolean, Decimal, Double, Guid, Int32, Int64, Object, String, StringFixedLength, DateTimeOffset}
  }

  /** d.ToString(): the member name, or the number for an unnamed value. */
  function Name(d: DataType): string
  {
    if d == Binary then "Binary"
    else if d == Boolean then "Boolean"
    else if d == Decimal then "Decimal"
    else if d == Double then "Double"
    else if d == Guid then "Guid"
    else if d == Int32 then "Int32"
    else if d == Int64 then "Int64"
    else if d == Object then "Object"
    else if d == String then "String"
    else if d == StringFixedLength then "StringFixedLength"
    else if d == DateTimeOffset then "DateTimeOffset"
    else T.IntToString(d)
  }
}

// MicronTypeMap (src/Micron/MicronTypeMap.cs): the DbType for a CLR type, the
// DbType for a MicronParameterDataType, and which CLR types admit null.
module MicronTypeMap {
  import opened Common
  import D = DbTypes
  import P = MicronParameterDataType

  /** The nine value types of the table; each is listed both plain and as Nullable<T>. */
  datatype Scalar = Int | Long | Double | Decimal | Bool | Char | Guid | DateTimeOffset | TimeSpan

  /** A runtime type, as far as the map tells types apart. */
  datatype ClrType =
    | Plain(scalar: Scalar)          // int, long, double, decimal, bool, char, Guid, DateTimeOffset, TimeSpan
    | NullableOf(scalar: Scalar)     // int?, long?, ... TimeSpan?
    | StringType                     // string
    | ByteArray                      // byte[]
    | ObjectType                     // object
    | OtherClass(name: string)       // any other reference type
    | OtherStruct(name: string)      // any other value type (byte, short, DateTime, ...)
    | OtherNullable(name: string)    // Nullable<T> of any other value type

  /** The static type table: 21 entries. */
  const TypeMap: map<ClrType, D.DbType> := map[
    Plain(Int) := D.Int32,
    Plain(Long) := D.Int64,
    Plain(Double) := D.Double,
    Plain(Decimal) := D.Decimal,
    Plain(Bool) := D.Boolean,
    StringType := D.String,
    Plain(Char) := D.StringFixedLength,
    Plain(Guid) := D.Guid,
    Plain(DateTimeOffset) := D.DateTimeOffset,
    Plain(TimeSpan) := D.Time,
    ByteArray := D.Binary,
    NullableOf(Int) := D.Int32,
    NullableOf(Long) := D.Int64,
    NullableOf(Double) := D.Double,
    NullableOf(Decimal) := D.Decimal,
    NullableOf(Bool) := D.Boolean,
    NullableOf(Char) := D.StringFixedLength,
    NullableOf(Guid) := D.Guid,
    NullableOf(DateTimeOffset) := D.DateTimeOffset,
    NullableOf(TimeSpan) := D.Time,
    ObjectType := D.Object
  ]

  /** The nullable structs the class lists. */
  const NullableStructs: seq<ClrType> := [
    NullableOf(Int), NullableOf(Long), NullableOf(Double), NullableOf(Decimal), NullableOf(Bool),
    NullableOf(Char), NullableOf(Guid), NullableOf(DateTimeOffset), NullableOf(TimeSpan)
  ]

  /** The DbType of a listed value type, written per type. */
  function ScalarDbType(s: Scalar): D.DbType
  {
    match s
    case Int => D.Int32
    case Long => D.Int64
    case Double => D.Double
    case Decimal => D.Decimal
    case Bool => D.Boolean
    case Char => D.StringFixedLength
    case Guid => D.Guid
    case DateTimeOffset => D.DateTimeOffset
    case TimeSpan => D.Time
  }

  /** MapTypeToDbType(type): null and any unlisted type give Object, so the
      lookup never throws. */
  function MapTypeToDbType(t: Option<ClrType>): (r: D.DbType)
    ensures r in TypeMap.Values
    ensures t.None? ==> r == D.Object
  {
    if t.None? then TypeMap[ObjectType]
    else if t.value in TypeMap then TypeMap[t.value]
    else TypeMap[ObjectType]
  }

  /** A listed value type and its nullable form are both keys of the table,
      with the DbType written per type. */
  lemma ScalarEntries(s: Scalar)
    ensures Plain(s) in TypeMap && TypeMap[Plain(s)] == ScalarDbType(s)
    ensures NullableOf(s) in TypeMap && TypeMap[NullableOf(s)] == ScalarDbType(s)
    ensures NullableOf(s) in NullableStructs
  {
    match s
    case Int =>
    case Long =>
    case Double =>
    case Decimal =>
    case Bool =>
    case Char =>
    case Guid =>
    case DateTimeOffset =>
    case TimeSpan =>
  }

  /** The table read per type: a listed value type and its nullable form share
      one DbType; string, byte[] and object have their own; everything else
      falls back to Object. */
  lemma MapTypeToDbTypeByType(t: ClrType)
    ensures t.Plain? || t.NullableOf? ==> MapTypeToDbType(Some(t)) == ScalarDbType(t.scalar)
    ensures t == StringType ==> MapTypeToDbType(Some(t)) == D.String
    ensures t == ByteArray ==> MapTypeToDbType(Some(t)) == D.Binary
    ensures t.ObjectType? || t.OtherClass? || t.OtherStruct? || t.OtherNullable? ==> MapTypeToDbType(Some(t)) == D.Object
  {
    if t.Plain? || t.NullableOf? {
      ScalarEntries(t.scalar);
    }
  }

  /** T and Nullable<T> map to the same DbType. */
  lemma NullableMapsLikePlain(s: Scalar)
    ensures MapTypeToDbType(Some(NullableOf(s))) == MapTypeToDbType(Some(Plain(s)))
  {
    MapTypeToDbTypeByType(NullableOf(s));
    MapTypeToDbTypeByType(Plain(s));
  }

  predicate IsClass(t: ClrType)
  {
    t.StringType? || t.ByteArray? || t.ObjectType? || t.OtherClass?
  }

  /** IsNullable(type): every reference type and the nine listed nullable
      structs; no plain value type, and no nullable struct the list misses. */
  function IsNullable(t: ClrType): (r: bool)
    ensures r <==> !(t.Plain? || t.OtherStruct? || t.OtherNullable?)
  {
    assert t.NullableOf? ==> t in NullableStructs by {
      if t.NullableOf? {
        ScalarEntries(t.scalar);
      }
    }
    IsClass(t) || t == ByteArray || t in NullableStructs
  }

  /** MapMicronParameterTypeToDbType(dataType): null gives String; otherwise
      the numeric cast, so a named data type becomes the DbType of the same name. */
  function MapMicronParameterTypeToDbType(dataType: Option<P.DataType>): (r: D.DbType)
    ensures dataType.None? ==> r == D.String
    ensures dataType.Some? ==> r == dataType.value
    ensures dataType.Some? && P.IsDefined(dataType.value) ==> D.Name(r) == P.Name(dataType.value)
  {
    if dataType.None? then D.String else dataType.value
  }

  /** Every DbType of the table except Time is the number of a named data
      type, so that data type maps back to it; Time has no data type. */
  lemma TableDbTypesHaveDataTypes(t: Option<ClrType>)
    ensures var db := MapTypeToDbType(t);
      (P.IsDefined(db) <==> db != D.Time)
      && (db != D.Time ==> MapMicronParameterTypeToDbType(Some(db)) == db && P.Name(db) == D.Name(db))
  {
    if t.Some? {
      MapTypeToDbTypeByType(t.value);
    }
  }
}
