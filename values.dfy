/** JavaScript values as the library sees them, the errors it raises, and the
    scalar type predicates of the `simpli` namespace. */
module Values {
  import opened Text

  datatype Option<T> = None | Some(value: T)

  /** A JavaScript number. Only whether it is integral matters to the
      library's predicates; a non-integral number (including NaN and the
      infinities) is kept as the text JavaScript renders it as. */
  datatype Number = Integral(i: int) | NonIntegral(text: string)

  /** A JavaScript value: a plain object, a function and an array are the
      only kinds of object the library tells apart. */
  datatype JsVal =
    | Undef
    | Null
    | Bool(b: bool)
    | Num(n: Number)
    | Str(s: string)
    | Arr(elems: seq<JsVal>)
    | Obj
    | Func

  /** Every `TypeError` the modelled code throws, one constructor per throw
      site. Only the failure reported by the argument checker carries its
      message text. */
  datatype TypeError =
    | NthIndexZero
    | SizeNotInteger
    | NameWithoutCallback
    | TypeArgumentInvalid
    | ArraySizeNotInteger
    | ArraySizeNotPositive
    | ExtendedTypeInStrictMode
    | UnrecognizedDataType(token: string)
    | BadSignatureList
    | BadSignatureFormat
    | InvalidSignatureType(token: string)
    | OptionalNotLast
    | RepeatableNotLast
    | OnlyOneRepeatable
    | MissingSignature
    | UnrecognizedMode
    | UnrecognizedErrorMode
    | Reported(message: string)

  /** The outcome of an operation that either returns a value or throws. */
  datatype Result<T> = Ok(value: T) | Throws(error: TypeError)

  /** `typeof v`. */
  function TypeOf(v: JsVal): string
  {
    match v
    case Undef => "undefined"
    case Null => "object"
    case Bool(_) => "boolean"
    case Num(_) => "number"
    case Str(_) => "string"
    case Arr(_) => "object"
    case Obj => "object"
    case Func => "function"
  }

  /** `simpli.getClass`: the `Class` part of `Object.prototype.toString`. */
  function ClassName(v: JsVal): string
  {
    match v
    case Undef => "Undefined"
    case Null => "Null"
    case Bool(_) => "Boolean"
    case Num(_) => "Number"
    case Str(_) => "String"
    case Arr(_) => "Array"
    case Obj => "Object"
    case Func => "Function"
  }

  /** `Object.prototype.toString.call(v)`. */
  function ObjectToString(v: JsVal): string
  {
    "[object " + ClassName(v) + "]"
  }

  predicate IsMixed(v: JsVal) { TypeOf(v) != "undefined" }
  predicate IsDefined(v: JsVal) { TypeOf(v) != "undefined" }
  predicate IsNull(v: JsVal) { v == Null }
  predicate IsSet(v: JsVal) { IsDefined(v) && !IsNull(v) }
  predicate IsArray(v: JsVal) { ClassName(v) == "Array" }
  predicate IsObject(v: JsVal) { TypeOf(v) == "object" && !IsArray(v) && v != Null }
  predicate IsNumber(v: JsVal) { TypeOf(v) == "number" }
  predicate IsFunction(v: JsVal) { TypeOf(v) == "function" }
  predicate IsBoolean(v: JsVal) { TypeOf(v) == "boolean" }
  predicate IsString(v: JsVal) { TypeOf(v) == "string" }
  predicate IsInteger(v: JsVal) { IsNumber(v) && v.n.Integral? }
  /** `simpli.isDecimal` without its digit-count arguments. */
  predicate IsDecimal(v: JsVal) { IsNumber(v) }
  predicate IsChar(v: JsVal) { IsString(v) && JsLength(v.s) == 1 }

  /** The UTF-16 code units a character takes: two for one outside the
      Basic Multilingual Plane (a surrogate pair), one otherwise. */
  function CodeUnits(c: char): nat
  {
    if c as int < 0x1_0000 then 1 else 2
  }

  /** `String.prototype.length`, which counts UTF-16 code units. */
  function JsLength(s: string): (n: nat)
    ensures |s| <= n <= 2 * |s|
  {
    if |s| == 0 then 0 else JsLength(s[..|s| - 1]) + CodeUnits(s[|s| - 1])
  }

  /** A UTF-16 code unit, the element of a JavaScript string. */
  type CodeUnit = u: int | 0 <= u < 0x1_0000

  /** The UTF-16 encoding of one character: itself, or a surrogate pair. */
  function Encode(c: char): (u: seq<CodeUnit>)
    ensures |u| == CodeUnits(c)
  {
    if c as int < 0x1_0000 then [c as int]
    else
      var v := c as int - 0x1_0000;
      [0xD800 + v / 0x400, 0xDC00 + v % 0x400]
  }

  /** A string as JavaScript holds it: its UTF-16 code units. Lengths and
      positions in JavaScript strings count these. */
  function Utf16(s: string): (u: seq<CodeUnit>)
    ensures |u| == JsLength(s)
  {
    if |s| == 0 then [] else Utf16(s[..|s| - 1]) + Encode(s[|s| - 1])
  }

  /** A string in the Basic Multilingual Plane is encoded character by character. */
  lemma {:induction false} Utf16Bmp(s: string)
    requires forall i :: 0 <= i < |s| ==> s[i] as int < 0x1_0000
    ensures |Utf16(s)| == |s| && forall i :: 0 <= i < |s| ==> Utf16(s)[i] == s[i] as int
  {
    if |s| > 0 {
      var t := s[..|s| - 1];
      Utf16Bmp(t);
      assert forall i :: 0 <= i < |t| ==> t[i] == s[i];
    }
  }

  /** A string whose characters all lie in the Basic Multilingual Plane has
      as many code units as characters, and only such a string does. */
  lemma {:induction false} JsLengthBmp(s: string)
    ensures JsLength(s) == |s| <==> forall i :: 0 <= i < |s| ==> s[i] as int < 0x1_0000
  {
    if |s| > 0 {
      var t := s[..|s| - 1];
      JsLengthBmp(t);
      assert forall i :: 0 <= i < |t| ==> t[i] == s[i];
      if JsLength(s) == |s| {
        assert JsLength(t) == |t| && CodeUnits(s[|s| - 1]) == 1;
      }
    }
  }

  /** `isChar` holds of exactly the one-character strings whose character
      is in the Basic Multilingual Plane. */
  lemma IsCharOneUnit(s: string)
    ensures IsChar(Str(s)) <==> |s| == 1 && s[0] as int < 0x1_0000
  {
    if |s| == 1 {
      assert s[..0] == [];
    }
  }

  /** The `typeof`-based predicates agree with the class names: each defined
      value has exactly one kind, and the derived predicates refine it. */
  lemma KindTable(v: JsVal)
    ensures IsMixed(v) <==> v != Undef
    ensures IsNull(v) <==> ClassName(v) == "Null"
    ensures IsBoolean(v) <==> ClassName(v) == "Boolean"
    ensures IsNumber(v) <==> ClassName(v) == "Number"
    ensures IsString(v) <==> ClassName(v) == "String"
    ensures IsArray(v) <==> ClassName(v) == "Array"
    ensures IsObject(v) <==> ClassName(v) == "Object"
    ensures IsFunction(v) <==> ClassName(v) == "Function"
    ensures IsSet(v) <==> !(v == Undef || v == Null)
    ensures IsInteger(v) ==> IsNumber(v)
    ensures IsDecimal(v) <==> IsNumber(v)
    ensures IsChar(v) ==> IsString(v)
    ensures IsMixed(v) ==> (IsNull(v) || IsBoolean(v) || IsNumber(v) || IsString(v)
                            || IsArray(v) || IsObject(v) || IsFunction(v))
  {
  }
}
