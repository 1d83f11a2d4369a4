// ImdbNull of the test client (src/Micron.TestClient/DataModel/ImdbNull.cs):
// IMDb's dataset files write a missing value as the two characters \N.
// ImdbNull has one instance, which equals any ImdbNull, hashes to 0 and prints
// as \N.
module ImdbNull {
  import opened Common

  const NullString: string := "\\N"

  /** The single instance (the constructor is private). */
  datatype ImdbNull = Instance

  /** What an `object?` argument of Equals can be. */
  datatype Obj = NullRef | Imdb(value: ImdbNull) | Str(s: string) | OtherObject

  /** IsImdbNull(value): exactly the backslash-N marker; null is not. */
  function IsImdbNull(value: Option<string>): (r: bool)
    ensures r <==> value.Some? && |value.value| == 2 && value.value[0] == '\\' && value.value[1] == 'N'
  {
    value.Some? && value.value == NullString
  }

  /** ToString(): the marker IsImdbNull accepts. */
  function ToString(n: ImdbNull): (r: string)
    ensures IsImdbNull(Some(r))
  {
    NullString
  }

  /** The implicit conversion to string: value?.ToString() ?? NullString. For
      the instance and for null alike it is the one string IsImdbNull accepts. */
  function AsString(value: Option<ImdbNull>): (r: string)
    ensures forall s :: IsImdbNull(s) <==> s == Some(r)
  {
    if value.Some? then ToString(value.value) else NullString
  }

  /** Equals(obj): the instance itself or any ImdbNull; never null, a string or another object. */
  function Equals(n: ImdbNull, obj: Obj): (r: bool)
    ensures r <==> obj.Imdb?
    ensures r ==> GetHashCode(n) == GetHashCode(obj.value)
  {
    obj == Imdb(n) || obj.Imdb?
  }

  /** GetHashCode(): the same constant for every instance. */
  function GetHashCode(n: ImdbNull): (r: int)
    ensures r == 0
  {
    0
  }
}
