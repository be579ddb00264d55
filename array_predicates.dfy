/** The sized array predicates `simpli.isObjectArray`, `isNumberArray`,
    `isFunctionArray`, `isBooleanArray`, `isIntegerArray`, `isDecimalArray`
    and `isStringArray`. They differ only in the scalar predicate applied to
    each element, so one definition takes that predicate as a parameter. */
module ArrayPredicates {
  import opened Values

  /** Specification: false for a non-array; a TypeError when `size` is given
      but is not an integer; false when `size` is given and the length differs;
      otherwise whether every element satisfies `elem`. */
  function ArrayOf(arg: JsVal, size: JsVal, elem: JsVal -> bool): Result<bool>
  {
    if !IsArray(arg) then Ok(false)
    else if IsDefined(size) && !IsInteger(size) then Throws(SizeNotInteger)
    else if IsDefined(size) && |arg.elems| != size.n.i then Ok(false)
    else Ok(forall i :: 0 <= i < |arg.elems| ==> elem(arg.elems[i]))
  }

  method IsArrayOf(arg: JsVal, size: JsVal, elem: JsVal -> bool) returns (r: Result<bool>)
    ensures r == ArrayOf(arg, size, elem)
  {
    if !IsArray(arg) {
      return Ok(false);
    }
    var l := |arg.elems|;
    if IsDefined(size) {
      if !IsInteger(size) {
        return Throws(SizeNotInteger);
      }
      if l != size.n.i {
        return Ok(false);
      }
    }
    for i := 0 to l
      invariant forall k :: 0 <= k < i ==> elem(arg.elems[k])
    {
      if !elem(arg.elems[i]) {
        return Ok(false);
      }
    }
    return Ok(true);
  }

  function IsObjectArray(arg: JsVal, size: JsVal): Result<bool> { ArrayOf(arg, size, IsObject) }
  function IsNumberArray(arg: JsVal, size: JsVal): Result<bool> { ArrayOf(arg, size, IsNumber) }
  function IsFunctionArray(arg: JsVal, size: JsVal): Result<bool> { ArrayOf(arg, size, IsFunction) }
  function IsBooleanArray(arg: JsVal, size: JsVal): Result<bool> { ArrayOf(arg, size, IsBoolean) }
  function IsIntegerArray(arg: JsVal, size: JsVal): Result<bool> { ArrayOf(arg, size, IsInteger) }
  /** An alias of `IsNumberArray` in the library. */
  function IsDecimalArray(arg: JsVal, size: JsVal): Result<bool> { IsNumberArray(arg, size) }
  function IsStringArray(arg: JsVal, size: JsVal): Result<bool> { ArrayOf(arg, size, IsString) }

  /** The size argument is an exact length, never a bound; only a defined
      non-integer size throws, and only for an array. */
  lemma ArrayOfSize(arg: JsVal, size: JsVal, elem: JsVal -> bool)
    ensures ArrayOf(arg, size, elem).Throws? <==> IsArray(arg) && IsDefined(size) && !IsInteger(size)
    ensures ArrayOf(arg, size, elem) == Ok(true) ==>
      IsArray(arg) && (IsInteger(size) ==> |arg.elems| == size.n.i)
    ensures ArrayOf(arg, size, elem) == Ok(true) ==>
      forall x :: x in arg.elems ==> elem(x)
  {
  }

  /** The empty array satisfies every element predicate exactly when the
      size is absent or zero. */
  lemma EmptyArrayOf(elem: JsVal -> bool, k: int)
    ensures ArrayOf(Arr([]), Undef, elem) == Ok(true)
    ensures ArrayOf(Arr([]), Num(Integral(k)), elem) == Ok(k == 0)
  {
  }
}
