/** The type names a signature may use (`_argv.typeRegEx`), and `_argv.isType`,
    which decides whether a value has a named type under the current mode. */
module TypeGrammar {
  import opened Text
  import opened Values
  import opened Modes
  import ArrayPredicates

  /** The element types that may also be written as an array type. */
  const BaseNames: set<string> := {"mixed", "object", "number", "boolean", "bool", "function",
    "string", "integer", "int", "decimal", "float", "double", "char"}

  /** The names that stand alone: the base names and `*`, `array`, `null`. */
  const PlainNames: set<string> := BaseNames + {"*", "array", "null"}

  /** One accepted type name: a plain name, `base[]`, or `base[n]` for a
      positive `n` written without leading zeros. */
  datatype Token = Plain(name: string) | Open(base: string) | Sized(base: string, n: nat)

  predicate WellFormedToken(t: Token)
  {
    match t
    case Plain(name) => name in PlainNames
    case Open(b) => b in BaseNames
    case Sized(b, n) => b in BaseNames && n >= 1
  }

  /** How a token is written in a signature. */
  function Spelling(t: Token): string
  {
    match t
    case Plain(name) => name
    case Open(b) => b + "[]"
    case Sized(b, n) => b + "[" + NatToString(n) + "]"
  }

  /** The anchored match of `_argv.typeRegEx`: the token `s` spells, if any. */
  function ParseTypeToken(s: string): Option<Token>
  {
    if s in PlainNames then Some(Plain(s))
    else if '[' !in s then None
    else
      var i := FirstIndex(s, '[');
      if s[..i] !in BaseNames || |s| < i + 2 || s[|s| - 1] != ']' then None
      else
        var inner := s[i + 1..|s| - 1];
        if inner == "" then Some(Open(s[..i]))
        else if IsDigits(inner) && inner[0] != '0' then Some(Sized(s[..i], DigitsValue(inner)))
        else None
  }

  /** The characters type names are written with. */
  predicate NameChar(c: char)
  {
    'a' <= c <= 'z' || c == '*' || c == '[' || c == ']' || IsDigit(c)
  }

  lemma NameCharFacts(c: char)
    requires NameChar(c)
    ensures c != '|' && c != '.' && !IsJsSpace(c)
  {
  }

  predicate NameChars(s: string)
  {
    forall k :: 0 <= k < |s| ==> NameChar(s[k])
  }

  /** A plain name is written in lower-case letters, or is `*`. */
  lemma PlainNameLetters(s: string)
    requires s in PlainNames
    ensures |s| >= 1 && s[0] != '['
    ensures forall k :: 0 <= k < |s| ==> 'a' <= s[k] <= 'z' || s[k] == '*'
  {
    if s in BaseNames {
      if s in {"mixed", "object", "number", "boolean", "bool", "function"} {
      } else {
      }
    }
  }

  /** No plain name contains a bracket, a bar or white space, and none
      starts with `[` or `.`. */
  lemma PlainNameChars(s: string)
    requires s in PlainNames
    ensures '[' !in s && ']' !in s && '|' !in s
    ensures forall k :: 0 <= k < |s| ==> !IsJsSpace(s[k])
    ensures |s| >= 1 && s[0] != '[' && s[0] != '.'
  {
    PlainNameLetters(s);
    forall k | 0 <= k < |s| ensures s[k] != '[' && s[k] != ']' && s[k] != '|' && !IsJsSpace(s[k]) {
      NameCharFacts(s[k]);
    }
  }

  lemma NameCharsConcat(a: string, b: string)
    requires NameChars(a) && NameChars(b)
    ensures NameChars(a + b)
  {
    forall k | 0 <= k < |a + b| ensures NameChar((a + b)[k]) {
      if k >= |a| {
        assert (a + b)[k] == b[k - |a|];
      }
    }
  }

  /** A spelling is written in name characters and starts with a letter or `*`. */
  lemma SpellingNameChars(t: Token)
    requires WellFormedToken(t)
    ensures NameChars(Spelling(t))
    ensures |Spelling(t)| >= 1 && ('a' <= Spelling(t)[0] <= 'z' || Spelling(t)[0] == '*')
  {
    match t
    case Plain(name) =>
      PlainNameLetters(name);
    case Open(b) =>
      PlainNameLetters(b);
      NameCharsConcat(b, "[]");
    case Sized(b, n) =>
      PlainNameLetters(b);
      var d := NatToString(n);
      NameCharsConcat(b, "[");
      NameCharsConcat(b + "[", d);
      NameCharsConcat(b + "[" + d, "]");
  }

  /** Every spelling is free of `|` and white space and starts with a letter
      or `*`; these are what let a signature list be split and unwrapped. */
  lemma SpellingChars(t: Token)
    requires WellFormedToken(t)
    ensures '|' !in Spelling(t)
    ensures forall k :: 0 <= k < |Spelling(t)| ==> !IsJsSpace(Spelling(t)[k])
    ensures |Spelling(t)| >= 1 && Spelling(t)[0] != '[' && Spelling(t)[0] != '.'
  {
    var s := Spelling(t);
    SpellingNameChars(t);
    forall k | 0 <= k < |s| ensures s[k] != '|' && !IsJsSpace(s[k]) {
      NameCharFacts(s[k]);
    }
  }

  /** Parsing finds only well-formed tokens, spelled exactly as given. */
  lemma ParseTypeTokenSound(s: string)
    requires ParseTypeToken(s).Some?
    ensures WellFormedToken(ParseTypeToken(s).value)
    ensures Spelling(ParseTypeToken(s).value) == s
  {
    if s !in PlainNames {
      var i := FirstIndex(s, '[');
      var inner := s[i + 1..|s| - 1];
      assert s == s[..i] + "[" + inner + "]";
      if inner != "" {
        NatToStringOfDigitsValue(inner);
        DigitsValuePositive(inner);
      }
    }
  }

  /** Every well-formed token is recognised from its spelling. */
  lemma ParseTypeTokenComplete(t: Token)
    requires WellFormedToken(t)
    ensures ParseTypeToken(Spelling(t)) == Some(t)
  {
    match t
    case Plain(name) =>
    case Open(b) => ParseOpen(b);
    case Sized(b, n) => ParseSized(b, n);
  }

  /** A spelling with a bracket after a base name is not a plain name, and
      its first bracket is the one after the base name. */
  lemma BracketAfterBase(b: string, rest: string)
    requires b in BaseNames
    ensures var s := b + ['['] + rest;
      s !in PlainNames && '[' in s && FirstIndex(s, '[') == |b| && s[..|b|] == b
  {
    PlainNameChars(b);
    var s := b + ['['] + rest;
    FirstIndexAfterPrefix(b, '[', rest);
    assert s[..|b|] == b && s[|b|] == '[';
    if s in PlainNames {
      PlainNameChars(s);
    }
  }

  lemma ParseOpen(b: string)
    requires b in BaseNames
    ensures ParseTypeToken(b + "[]") == Some(Open(b))
  {
    BracketAfterBase(b, "]");
    assert b + "[]" == b + ['['] + "]";
  }

  lemma ParseSized(b: string, n: nat)
    requires b in BaseNames && n >= 1
    ensures ParseTypeToken(b + "[" + NatToString(n) + "]") == Some(Sized(b, n))
  {
    var d := NatToString(n);
    var s := b + "[" + d + "]";
    BracketAfterBase(b, d + "]");
    assert s == b + ['['] + (d + "]");
    assert s[|b| + 1..|s| - 1] == d;
    DigitsValueOfNatToString(n);
  }

  /** The type name and array size `_argv.checkArg` hands to `isType`: a
      sized token becomes `base[]` with its size, any other token its own
      spelling without one. */
  function Resolve(t: Token): (string, Option<nat>)
  {
    match t
    case Sized(b, n) => (b + "[]", Some(n))
    case _ => (Spelling(t), None)
  }

  /** The size argument as the array predicates receive it. */
  function SizeArg(size: Option<nat>): JsVal
  {
    if size.Some? then Num(Integral(size.value)) else Undef
  }

  /** The outer `switch` of `_argv.isType`: the basic JavaScript names,
      decided in both modes; any other name is left to the inner one. */
  function BasicType(arg: JsVal, dataType: string): Option<bool>
  {
    if dataType == "*" then Some(IsMixed(arg))
    else if dataType == "array" then Some(IsArray(arg))
    else if dataType == "null" then Some(IsNull(arg))
    else if dataType == "object" then Some(IsObject(arg))
    else if dataType == "number" then Some(IsNumber(arg))
    else if dataType == "boolean" || dataType == "bool" then Some(IsBoolean(arg))
    else if dataType == "function" then Some(IsFunction(arg))
    else if dataType == "string" then Some(IsString(arg))
    else None
  }

  /** The inner `switch`, reached in EXTEND mode: the extended names are
      checked, `mixed[]` ignores the size, `char[]` matches a string of
      exactly the given length (and nothing without a size), and an unknown
      name matches nothing. */
  function ExtendedType(arg: JsVal, dataType: string, size: Option<nat>): Result<bool>
  {
    if dataType == "mixed" then Ok(IsMixed(arg))
    else if dataType == "integer" || dataType == "int" then Ok(IsInteger(arg))
    else if dataType in {"decimal", "float", "double"} then Ok(IsDecimal(arg))
    else if dataType == "char" then Ok(IsChar(arg))
    else if dataType == "mixed[]" then Ok(IsArray(arg))
    else if dataType == "object[]" then ArrayPredicates.IsObjectArray(arg, SizeArg(size))
    else if dataType == "number[]" then ArrayPredicates.IsNumberArray(arg, SizeArg(size))
    else if dataType in {"boolean[]", "bool[]"} then ArrayPredicates.IsBooleanArray(arg, SizeArg(size))
    else if dataType == "string[]" then ArrayPredicates.IsStringArray(arg, SizeArg(size))
    else if dataType in {"integer[]", "int[]"} then ArrayPredicates.IsIntegerArray(arg, SizeArg(size))
    else if dataType in {"decimal[]", "float[]", "double[]"} then ArrayPredicates.IsDecimalArray(arg, SizeArg(size))
    else if dataType == "function[]" then ArrayPredicates.IsFunctionArray(arg, SizeArg(size))
    else if dataType == "char[]" then Ok(IsString(arg) && size.Some? && JsLength(arg.s) == size.value)
    else Ok(false)
  }

  /** Specification of `_argv.isType` for a type name: a basic name is
      decided in both modes; in STRICT mode any other name throws. */
  function IsType(arg: JsVal, dataType: string, size: Option<nat>, mode: Mode): Result<bool>
  {
    var basic := BasicType(arg, dataType);
    if basic.Some? then Ok(basic.value)
    else if mode == Strict then Throws(ExtendedTypeInStrictMode)
    else ExtendedType(arg, dataType, size)
  }

  /** The names that work in STRICT mode. */
  predicate IsBasicName(dataType: string)
  {
    dataType in {"*", "array", "null", "object", "number", "boolean", "bool", "function", "string"}
  }

  /** `isType` throws exactly for a name outside the basic ones checked in
      STRICT mode; in EXTEND mode every name is decided. */
  lemma IsTypeThrows(arg: JsVal, dataType: string, size: Option<nat>, mode: Mode)
    ensures IsType(arg, dataType, size, mode).Throws? <==> mode == Strict && !IsBasicName(dataType)
    ensures IsType(arg, dataType, size, mode).Throws? ==>
      IsType(arg, dataType, size, mode).error == ExtendedTypeInStrictMode
  {
    BasicTypeNames(arg, dataType);
    ExtendedTypeDecides(arg, dataType, size);
  }

  lemma BasicTypeNames(arg: JsVal, dataType: string)
    ensures BasicType(arg, dataType).Some? <==> IsBasicName(dataType)
  {
  }

  /** A size handed on by `checkArg` is always an integer or absent, so no
      array predicate throws. */
  lemma ExtendedTypeDecides(arg: JsVal, dataType: string, size: Option<nat>)
    ensures ExtendedType(arg, dataType, size).Ok?
  {
    var n := SizeArg(size);
    assert ArrayPredicates.IsObjectArray(arg, n).Ok? by { SizedArrayOfDecides(arg, size, IsObject); }
    assert ArrayPredicates.IsNumberArray(arg, n).Ok? by { SizedArrayOfDecides(arg, size, IsNumber); }
    assert ArrayPredicates.IsDecimalArray(arg, n).Ok? by { SizedArrayOfDecides(arg, size, IsNumber); }
    assert ArrayPredicates.IsBooleanArray(arg, n).Ok? by { SizedArrayOfDecides(arg, size, IsBoolean); }
    assert ArrayPredicates.IsStringArray(arg, n).Ok? by { SizedArrayOfDecides(arg, size, IsString); }
    assert ArrayPredicates.IsIntegerArray(arg, n).Ok? by { SizedArrayOfDecides(arg, size, IsInteger); }
    assert ArrayPredicates.IsFunctionArray(arg, n).Ok? by { SizedArrayOfDecides(arg, size, IsFunction); }
  }

  lemma SizedArrayOfDecides(arg: JsVal, size: Option<nat>, elem: JsVal -> bool)
    ensures ArrayPredicates.ArrayOf(arg, SizeArg(size), elem).Ok?
  {
    var n := SizeArg(size);
    assert !IsDefined(n) || IsInteger(n);
  }

  /** A sized element-array token is an exact length, not a bound:
      `number[15]` accepts only arrays of exactly 15 numbers. */
  lemma SizedArrayIsExactLength(arg: JsVal, n: nat)
    requires n >= 1
    ensures var (dt, size) := Resolve(Sized("number", n));
      IsType(arg, dt, size, Extend) == Ok(IsArray(arg) && |arg.elems| == n && forall x :: x in arg.elems ==> IsNumber(x))
  {
    var (dt, size) := Resolve(Sized("number", n));
    assert dt == "number[]" && size == Some(n);
    NumberArrayName(arg, size);
    if IsArray(arg) {
      var xs := arg.elems;
      assert (forall x :: x in xs ==> IsNumber(x)) <==> forall i :: 0 <= i < |xs| ==> IsNumber(xs[i]);
    }
  }

  lemma NumberArrayName(arg: JsVal, size: Option<nat>)
    ensures IsType(arg, "number[]", size, Extend) == ArrayPredicates.IsNumberArray(arg, SizeArg(size))
  {
  }

  /** `mixed[n]` ignores `n`; `char[n]` matches a string of length `n`, never
      an array, and `char[]` matches nothing at all. */
  lemma MixedAndCharArrays(arg: JsVal, n: nat)
    requires n >= 1
    ensures IsType(arg, "mixed[]", Some(n), Extend) == Ok(IsArray(arg))
    ensures IsType(arg, "char[]", Some(n), Extend) == Ok(arg.Str? && JsLength(arg.s) == n)
    ensures IsType(arg, "char[]", None, Extend) == Ok(false)
  {
    assert BasicType(arg, "mixed[]").None? && BasicType(arg, "char[]").None?;
    assert ExtendedType(arg, "mixed[]", Some(n)) == Ok(IsArray(arg));
    assert ExtendedType(arg, "char[]", Some(n)) == Ok(arg.Str? && JsLength(arg.s) == n);
  }

  /** A character outside the Basic Multilingual Plane is two code units
      long, as `length` counts it: it is not a `char`, but it is a `char[2]`;
      a string of `n` such characters is a `char[2n]`. */
  lemma AstralCharacters(s: string)
    requires forall i :: 0 <= i < |s| ==> s[i] as int >= 0x1_0000
    ensures !IsChar(Str("\U{1F600}"))
    ensures IsType(Str("\U{1F600}"), "char[]", Some(2), Extend) == Ok(true)
    ensures IsType(Str(s), "char[]", Some(2 * |s|), Extend) == Ok(true)
  {
    IsCharOneUnit("\U{1F600}");
    AstralLength(s);
    if |s| == 0 {
      assert IsType(Str(s), "char[]", Some(0), Extend) == ExtendedType(Str(s), "char[]", Some(0));
    } else {
      MixedAndCharArrays(Str(s), 2 * |s|);
    }
    MixedAndCharArrays(Str("\U{1F600}"), 2);
    assert JsLength("\U{1F600}") == 2 by {
      assert "\U{1F600}"[..0] == [];
    }
  }

  lemma {:induction false} AstralLength(s: string)
    requires forall i :: 0 <= i < |s| ==> s[i] as int >= 0x1_0000
    ensures JsLength(s) == 2 * |s|
  {
    if |s| > 0 {
      AstralLength(s[..|s| - 1]);
    }
  }
}
