// ImdbConst of the test client (src/Micron.TestClient/DataModel/ImdbConst.cs):
// the constructor rejects a value with any character that is not a letter or
// a digit, and keeps nothing. char.IsLetterOrDigit is Unicode classification,
// which this model takes as a parameter.
module ImdbConst {
  import opened Common

  /** An ImdbConst holds no value. */
  datatype ImdbConst = ImdbConst

  /** s.Any(p). */
  function Any(s: string, p: char -> bool): (r: bool)
    ensures r <==> exists i :: 0 <= i < |s| && p(s[i])
  {
    if s == [] then false else p(s[0]) || Any(s[1..], p)
  }

  function NotLetterOrDigit(isLetterOrDigit: char -> bool): char -> bool
  {
    c => !isLetterOrDigit(c)
  }

  /** new ImdbConst(value): an ArgumentException naming "value" exactly when
      some character is not a letter or digit; the empty string passes. */
  function New(value: string, isLetterOrDigit: char -> bool): (r: Result<ImdbConst>)
    ensures r.Ok? <==> forall i :: 0 <= i < |value| ==> isLetterOrDigit(value[i])
    ensures r.Fail? ==> r.error == Argument("value")
  {
    if Any(value, NotLetterOrDigit(isLetterOrDigit)) then Fail(Argument("value")) else Ok(ImdbConst)
  }
}
