// Text operations of the .NET base library that the test client and the
// parameter model rely on: String.Split and String.Join on a one-character
// separator, Int32.ToString in decimal, and Convert.ToInt32 of a string.
module Text {
  import opened Common

  const Tab: char := '\t'

  const Int32Min: int := -0x8000_0000
  const Int32Max: int := 0x7FFF_FFFF

  predicate InInt32(i: int) { Int32Min <= i <= Int32Max }

  /** s.Split(sep): every occurrence of sep ends one part and starts the next,
      and empty parts are kept, so k separators give k + 1 parts. */
  function Split(s: string, sep: char): (parts: seq<string>)
    ensures |parts| >= 1
    ensures forall i :: 0 <= i < |parts| ==> sep !in parts[i]
  {
    if s == [] then [""]
    else
      var rest := Split(s[1..], sep);
      if s[0] == sep then [""] + rest
      else [[s[0]] + rest[0]] + rest[1..]
  }

  /** string.Join(sep, parts): the parts with one separator between neighbours. */
  function Join(parts: seq<string>, sep: char): string
    requires |parts| >= 1
  {
    if |parts| == 1 then parts[0] else parts[0] + [sep] + Join(parts[1..], sep)
  }

  /** Joining the parts of a split gives back the string. */
  lemma {:induction false} JoinSplit(s: string, sep: char)
    ensures Join(Split(s, sep), sep) == s
  {
    if s != [] {
      JoinSplit(s[1..], sep);
      var rest := Split(s[1..], sep);
      assert s == [s[0]] + s[1..];
      if s[0] == sep {
        assert ([""] + rest)[1..] == rest;
      } else if |rest| > 1 {
        var parts := [[s[0]] + rest[0]] + rest[1..];
        assert parts[1..] == rest[1..];
        assert Join(rest, sep) == rest[0] + [sep] + Join(rest[1..], sep);
      }
    }
  }

  /** A separator-free prefix becomes the start of the first part. */
  lemma {:induction false} SplitPrefix(a: string, b: string, sep: char)
    requires sep !in a
    ensures Split(a + b, sep) == [a + Split(b, sep)[0]] + Split(b, sep)[1..]
  {
    if a == [] {
      assert a + b == b;
      assert a + Split(b, sep)[0] == Split(b, sep)[0];
      assert Split(b, sep) == [Split(b, sep)[0]] + Split(b, sep)[1..];
    } else {
      SplitPrefix(a[1..], b, sep);
      assert (a + b)[0] == a[0] && a[0] != sep;
      assert (a + b)[1..] == a[1..] + b;
      var rest := Split(a[1..] + b, sep);
      assert rest[0] == a[1..] + Split(b, sep)[0];
      assert rest[1..] == Split(b, sep)[1..];
      assert [a[0]] + (a[1..] + Split(b, sep)[0]) == a + Split(b, sep)[0];
      assert [a[0]] + rest[0] == a + Split(b, sep)[0];
    }
  }

  /** Splitting a join of separator-free parts gives back the parts. */
  lemma {:induction false} SplitJoin(parts: seq<string>, sep: char)
    requires |parts| >= 1
    requires forall i :: 0 <= i < |parts| ==> sep !in parts[i]
    ensures Split(Join(parts, sep), sep) == parts
  {
    if |parts| == 1 {
      SplitPrefix(parts[0], "", sep);
      assert parts[0] + "" == parts[0];
      assert Split("", sep) == [""];
      assert parts == [parts[0] + ""];
    } else {
      SplitJoin(parts[1..], sep);
      var tail := [sep] + Join(parts[1..], sep);
      assert Join(parts, sep) == parts[0] + tail;
      SplitPrefix(parts[0], tail, sep);
      assert tail[1..] == Join(parts[1..], sep);
      assert Split(tail, sep) == [""] + parts[1..];
      assert Split(tail, sep)[0] == "" && Split(tail, sep)[1..] == parts[1..];
      assert parts[0] + "" == parts[0];
      assert parts == [parts[0]] + parts[1..];
    }
  }

  predicate IsDigit(c: char) { '0' <= c <= '9' }

  predicate AllDigits(s: string) { forall i :: 0 <= i < |s| ==> IsDigit(s[i]) }

  function DigitChar(d: nat): (c: char)
    requires d < 10
    ensures IsDigit(c) && c as int - '0' as int == d
  {
    (d + '0' as int) as char
  }

  /** n.ToString() for a non-negative n: its decimal digits, no leading zero. */
  function NatToString(n: nat): (s: string)
    ensures |s| >= 1 && AllDigits(s)
    ensures n > 0 ==> s[0] != '0'
  {
    if n < 10 then [DigitChar(n)] else NatToString(n / 10) + [DigitChar(n % 10)]
  }

  /** i.ToString(): a minus sign before the digits of a negative value. */
  function IntToString(i: int): (s: string)
    ensures |s| >= 1 && IsDigit(s[|s| - 1]) && (IsDigit(s[0]) || s[0] == '-')
    ensures forall k :: 0 <= k < |s| ==> IsDigit(s[k]) || s[k] == '-'
  {
    if i < 0 then "-" + NatToString(-i) else NatToString(i)
  }

  /** The number a string of decimal digits denotes. */
  function DigitsValue(s: string): nat
    requires AllDigits(s)
  {
    if s == [] then 0 else DigitsValue(s[..|s| - 1]) * 10 + (s[|s| - 1] as int - '0' as int)
  }

  /** Reading back the decimal form of n gives n. */
  lemma {:induction false} DigitsOfNat(n: nat)
    ensures DigitsValue(NatToString(n)) == n
  {
    var s := NatToString(n);
    if n >= 10 {
      DigitsOfNat(n / 10);
      assert s[..|s| - 1] == NatToString(n / 10);
    }
  }

  /** Different values print differently. */
  lemma IntToStringInjective(i: int, j: int)
    ensures IntToString(i) == IntToString(j) <==> i == j
  {
    if IntToString(i) == IntToString(j) {
      if i < 0 && j < 0 {
        NegativeToStringInjective(i, j);
      } else if 0 <= i && 0 <= j {
        DigitsOfNat(i);
        DigitsOfNat(j);
      } else {
        SignTellsApart(i, j);
      }
    }
  }

  lemma NegativeToStringInjective(i: int, j: int)
    requires i < 0 && j < 0 && IntToString(i) == IntToString(j)
    ensures i == j
  {
    var a, b := NatToString(-i), NatToString(-j);
    assert ("-" + a)[1..] == a && ("-" + b)[1..] == b;
    assert a == b;
    DigitsOfNat(-i);
    DigitsOfNat(-j);
  }

  lemma SignTellsApart(i: int, j: int)
    requires (i < 0) != (j < 0)
    ensures IntToString(i) != IntToString(j)
  {
    assert (IntToString(i)[0] == '-') == (i < 0);
    assert (IntToString(j)[0] == '-') == (j < 0);
  }

  /** The white-space characters Int32.Parse skips around a number. */
  predicate IsWhite(c: char) { c == ' ' || '\t' <= c <= '\r' }

  function TrimStart(s: string): (r: string)
    ensures |r| <= |s| && r == s[|s| - |r|..]
    ensures r == [] || !IsWhite(r[0])
  {
    if s != [] && IsWhite(s[0]) then TrimStart(s[1..]) else s
  }

  function TrimEnd(s: string): (r: string)
    ensures |r| <= |s| && r == s[..|r|]
    ensures r == [] || !IsWhite(r[|r| - 1])
  {
    if s != [] && IsWhite(s[|s| - 1]) then TrimEnd(s[..|s| - 1]) else s
  }

  /** Convert.ToInt32(value): null gives 0; otherwise optional white space, an
      optional sign, one or more digits and optional white space, whose value
      must fit in 32 bits. Anything else throws a FormatException, and a value
      outside the range an OverflowException. */
  function ParseInt32(value: Option<string>): (r: Result<int>)
    ensures value.None? ==> r == Ok(0)
    ensures r.Ok? ==> InInt32(r.value)
    ensures r.Fail? ==> r.error == Format || r.error == Overflow
  {
    if value.None? then Ok(0)
    else
      var t := TrimEnd(TrimStart(value.value));
      var signed := |t| > 0 && (t[0] == '-' || t[0] == '+');
      var digits := if signed then t[1..] else t;
      if digits == [] || !AllDigits(digits) then Fail(Format)
      else
        var magnitude: int := DigitsValue(digits);
        var v: int := if signed && t[0] == '-' then -magnitude else magnitude;
        if InInt32(v) then Ok(v) else Fail(Overflow)
  }

  /** Convert.ToInt32 reads back what Int32.ToString printed. */
  lemma ParsePrinted(i: int)
    requires InInt32(i)
    ensures ParseInt32(Some(IntToString(i))) == Ok(i)
  {
    var s := IntToString(i);
    assert TrimStart(s) == s by {
      assert !IsWhite(s[0]);
    }
    assert TrimEnd(s) == s by {
      assert !IsWhite(s[|s| - 1]);
    }
    if i < 0 {
      DigitsOfNat(-i);
      assert s[1..] == NatToString(-i);
    } else {
      DigitsOfNat(i);
    }
  }
}
