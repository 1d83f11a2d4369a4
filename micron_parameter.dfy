// MicronParameter (src/Micron/MicronParameter.cs): a parameter description
// with seven settable properties, a Clone that copies each of them into a new
// object, and GetParameterValues, the properties as seven strings.
module MicronParameter {
  import opened Common
  import T = Text
  import P = MicronParameterDataType

  /** System.Data.ParameterDirection, by number. */
  type Direction = int

  const Input: Direction := 1
  const Output: Direction := 2
  const InputOutput: Direction := 3
  const ReturnValue: Direction := 6

  /** direction.ToString(): the member name, or the number for an unnamed value. */
  function DirectionName(d: Direction): string
  {
    if d == Input then "Input"
    else if d == Output then "Output"
    else if d == InputOutput then "InputOutput"
    else if d == ReturnValue then "ReturnValue"
    else T.IntToString(d)
  }

  /** bool.ToString(). */
  function BoolName(b: bool): string
  {
    if b then "True" else "False"
  }

  type Byte = x: int | 0 <= x < 0x100

  type Int32 = x: int | T.Int32Min <= x <= T.Int32Max

  /** The seven properties, in declaration order. */
  datatype Properties = Properties(
    name: string, dataType: P.DataType, direction: Direction, isNullable: bool,
    precision: Byte, scale: Byte, size: Int32)

  /** GetParameterValues: Name, then DataType, Direction, IsNullable, Precision,
      Scale and Size, each as its ToString. */
  function ParameterValues(p: Properties): (r: seq<string>)
    ensures |r| == 7 && r[0] == p.name
  {
    [p.name, P.Name(p.dataType), DirectionName(p.direction), BoolName(p.isNullable),
     T.IntToString(p.precision), T.IntToString(p.scale), T.IntToString(p.size)]
  }

  /** Distinct data types print differently: a member name starts with a
      capital letter, a number with a digit or a sign. */
  lemma DataTypeNameInjective(d: P.DataType, e: P.DataType)
    ensures P.Name(d) == P.Name(e) <==> d == e
  {
    if P.Name(d) == P.Name(e) {
      DataTypeNameStart(d);
      DataTypeNameStart(e);
      if !P.IsDefined(d) && !P.IsDefined(e) {
        T.IntToStringInjective(d, e);
      } else if P.IsDefined(d) && P.IsDefined(e) {
        DefinedNamesDistinct(d, e);
      }
    }
  }

  lemma DataTypeNameStart(d: P.DataType)
    ensures P.IsDefined(d) ==> |P.Name(d)| > 0 && 'A' <= P.Name(d)[0] <= 'Z'
    ensures !P.IsDefined(d) ==> P.Name(d) == T.IntToString(d)
  {
  }

  lemma DefinedNamesDistinct(d: P.DataType, e: P.DataType)
    requires P.IsDefined(d) && P.IsDefined(e) && P.Name(d) == P.Name(e)
    ensures d == e
  {
  }

  lemma DirectionNameInjective(d: Direction, e: Direction)
    ensures DirectionName(d) == DirectionName(e) <==> d == e
  {
    var named := {Input, Output, InputOutput, ReturnValue};
    if DirectionName(d) == DirectionName(e) {
      if d !in named && e !in named {
        T.IntToStringInjective(d, e);
      }
    }
  }

  /** The seven strings tell parameters apart: two parameters yield the same
      values exactly when all seven properties agree. */
  lemma ValuesIdentifyProperties(p: Properties, q: Properties)
    ensures ParameterValues(p) == ParameterValues(q) <==> p == q
  {
    if ParameterValues(p) == ParameterValues(q) {
      var vp, vq := ParameterValues(p), ParameterValues(q);
      assert vp[1] == vq[1] && vp[2] == vq[2] && vp[3] == vq[3];
      assert vp[4] == vq[4] && vp[5] == vq[5] && vp[6] == vq[6];
      DataTypeNameInjective(p.dataType, q.dataType);
      DirectionNameInjective(p.direction, q.direction);
      T.IntToStringInjective(p.precision, q.precision);
      T.IntToStringInjective(p.scale, q.scale);
      T.IntToStringInjective(p.size, q.size);
    }
  }

  class MicronParameter {
    var name: string
    var dataType: P.DataType
    var direction: Direction
    var isNullable: bool
    var precision: Byte
    var scale: Byte
    var size: Int32

    /** `new MicronParameter()`: Name is "", every other property its type's default. */
    constructor ()
      ensures Current() == Properties("", 0, 0, false, 0, 0, 0)
    {
      name := "";
      dataType := 0;
      direction := 0;
      isNullable := false;
      precision := 0;
      scale := 0;
      size := 0;
    }

    /** The properties as they are now. */
    function Current(): Properties
      reads this
    {
      Properties(name, dataType, direction, isNullable, precision, scale, size)
    }

    /** GetParameterValues(): seven strings, the first the name and the
        fourth the nullability as bool.ToString writes it. */
    function GetParameterValues(): (r: seq<string>)
      reads this
      ensures |r| == 7 && r[0] == name && r[3] == (if isNullable then "True" else "False")
    {
      ParameterValues(Current())
    }

    /** Clone(): a new object with each of the seven properties copied, so it
        yields the same values and later changes to either leave the other alone. */
    method Clone() returns (c: MicronParameter)
      ensures fresh(c)
      ensures c.Current() == Current()
      ensures c.GetParameterValues() == GetParameterValues()
    {
      c := new MicronParameter();
      c.name := name;
      c.dataType := dataType;
      c.direction := direction;
      c.isNullable := isNullable;
      c.precision := precision;
      c.scale := scale;
      c.size := size;
    }
  }
}
