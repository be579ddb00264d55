/** `simpli.Type`: a user-defined argument type made of a display name, a
    callback deciding whether a value is acceptable, and the flags
    `optional`, `isArray` (with an upper bound `size`, 0 for none) and
    `repeatable`. */
module CustomType {
  import opened Text
  import opened Values

  /** The fields of a `simpli.Type` object at one moment. */
  datatype TypeDesc = TypeDesc(
    name: string,
    callback: JsVal -> bool,
    optional: bool,
    isArray: bool,
    size: int,
    repeatable: bool)

  /** The name given to a type built from a callback alone, and to every clone. */
  const DefaultName := "{simpli.Type}"

  /** The arguments the constructor may be given: a name, a callback, or
      anything else (including nothing). */
  datatype Operand = OpString(s: string) | OpFunction(f: JsVal -> bool) | OpOther

  /** Specification of the constructor: a name and a callback, or a callback
      alone; every flag starts cleared. */
  function Construct(nameOrCallback: Operand, callback: Operand): Result<TypeDesc>
  {
    match nameOrCallback
    case OpString(name) =>
      if callback.OpFunction? then Ok(TypeDesc(name, callback.f, false, false, 0, false))
      else Throws(NameWithoutCallback)
    case OpFunction(f) => Ok(TypeDesc(DefaultName, f, false, false, 0, false))
    case OpOther => Throws(TypeArgumentInvalid)
  }

  /** `_clone`: same callback and flags, default name. */
  function Cloned(d: TypeDesc): TypeDesc
  {
    d.(name := DefaultName)
  }

  function OptionalOf(d: TypeDesc): TypeDesc
  {
    Cloned(d).(optional := true)
  }

  function RepeatableOf(d: TypeDesc): TypeDesc
  {
    Cloned(d).(repeatable := true)
  }

  /** `array(size)`: a TypeError unless `size` is absent or a positive
      integer; the name is the receiver's name followed by `[size]` or `[]`. */
  function ArrayTypeOf(d: TypeDesc, size: JsVal): Result<TypeDesc>
  {
    if IsDefined(size) && !IsInteger(size) then Throws(ArraySizeNotInteger)
    else if IsDefined(size) && size.n.i <= 0 then Throws(ArraySizeNotPositive)
    else if IsDefined(size) then
      Ok(Cloned(d).(isArray := true, size := size.n.i, name := d.name + "[" + IntToString(size.n.i) + "]"))
    else Ok(Cloned(d).(isArray := true, name := d.name + "[]"))
  }

  /** `is` / `_toFunction`: an absent value passes an optional type; an array
      type needs an array no longer than a positive `size` whose every element
      passes the callback; otherwise the callback decides. */
  function Matches(d: TypeDesc, v: JsVal): bool
  {
    if d.optional && !IsDefined(v) then true
    else if d.isArray then
      IsArray(v) && !(d.size > 0 && |v.elems| > d.size)
      && forall i :: 0 <= i < |v.elems| ==> d.callback(v.elems[i])
    else d.callback(v)
  }

  /** A `simpli.Type` object. Its modifiers never write the receiver: each
      clones it and sets one field of the clone. */
  class TypeObject {
    var name: string
    var callback: JsVal -> bool
    var optional: bool
    var isArray: bool
    var size: int
    var repeatable: bool

    function Value(): TypeDesc
      reads this
    {
      TypeDesc(name, callback, optional, isArray, size, repeatable)
    }

    /** The part of the constructor that runs once its arguments are known to
        be valid. */
    constructor (name: string, callback: JsVal -> bool)
      ensures Value() == TypeDesc(name, callback, false, false, 0, false)
    {
      this.name := name;
      this.callback := callback;
      optional := false;
      isArray := false;
      size := 0;
      repeatable := false;
    }

    /** `new simpli.Type(nameOrCallback, callback)`. */
    static method Create(nameOrCallback: Operand, callback: Operand) returns (r: Result<TypeObject>)
      ensures Construct(nameOrCallback, callback).Throws? ==>
        r == Throws(Construct(nameOrCallback, callback).error)
      ensures Construct(nameOrCallback, callback).Ok? ==>
        r.Ok? && fresh(r.value) && r.value.Value() == Construct(nameOrCallback, callback).value
    {
      match nameOrCallback
      case OpString(n) =>
        if !callback.OpFunction? {
          return Throws(NameWithoutCallback);
        }
        var t := new TypeObject(n, callback.f);
        return Ok(t);
      case OpFunction(f) =>
        var t := new TypeObject(DefaultName, f);
        return Ok(t);
      case OpOther =>
        return Throws(TypeArgumentInvalid);
    }

    method Clone() returns (t: TypeObject)
      ensures fresh(t) && t.Value() == Cloned(Value())
    {
      t := new TypeObject(DefaultName, callback);
      t.optional := optional;
      t.isArray := isArray;
      t.size := size;
      t.repeatable := repeatable;
    }

    method Optional() returns (t: TypeObject)
      ensures fresh(t) && t.Value() == OptionalOf(Value())
    {
      t := Clone();
      t.optional := true;
    }

    method Repeatable() returns (t: TypeObject)
      ensures fresh(t) && t.Value() == RepeatableOf(Value())
    {
      t := Clone();
      t.repeatable := true;
    }

    method Array(size: JsVal) returns (r: Result<TypeObject>)
      ensures ArrayTypeOf(Value(), size).Throws? ==> r == Throws(ArrayTypeOf(Value(), size).error)
      ensures ArrayTypeOf(Value(), size).Ok? ==>
        r.Ok? && fresh(r.value) && r.value.Value() == ArrayTypeOf(Value(), size).value
    {
      var t := Clone();
      t.isArray := true;
      var sizeText: string;
      if IsDefined(size) {
        if !IsInteger(size) {
          return Throws(ArraySizeNotInteger);
        }
        if size.n.i <= 0 {
          return Throws(ArraySizeNotPositive);
        }
        t.size := size.n.i;
        sizeText := IntToString(size.n.i);
      } else {
        sizeText := "";
      }
      t.name := name + "[" + sizeText + "]";
      return Ok(t);
    }

    /** `is(arg)`. */
    method Is(arg: JsVal) returns (r: bool)
      ensures r == Matches(Value(), arg)
    {
      if optional && !IsDefined(arg) {
        return true;
      }
      if isArray {
        if !IsArray(arg) {
          return false;
        }
        if size > 0 && |arg.elems| > size {
          return false;
        }
        for i := 0 to |arg.elems|
          invariant forall k :: 0 <= k < i ==> callback(arg.elems[k])
        {
          if !callback(arg.elems[i]) {
            return false;
          }
        }
        return true;
      } else {
        return callback(arg);
      }
    }
  }

  /** `optional()` keeps the callback and every other flag, drops the name,
      and makes an absent value acceptable without changing the verdict on
      any defined value. */
  lemma OptionalModifier(d: TypeDesc, v: JsVal)
    ensures var o := OptionalOf(d);
      o.optional && o.name == DefaultName && o.callback == d.callback
      && o.isArray == d.isArray && o.size == d.size && o.repeatable == d.repeatable
    ensures Matches(OptionalOf(d), Undef)
    ensures IsDefined(v) ==> Matches(OptionalOf(d), v) == Matches(d, v)
  {
  }

  /** `repeatable()` keeps the callback and every other flag, drops the name,
      and accepts exactly what the receiver accepts. */
  lemma RepeatableModifier(d: TypeDesc, v: JsVal)
    ensures var o := RepeatableOf(d);
      o.repeatable && o.name == DefaultName && o.callback == d.callback
      && o.isArray == d.isArray && o.size == d.size && o.optional == d.optional
    ensures Matches(RepeatableOf(d), v) == Matches(d, v)
  {
  }

  /** `array(k)` for a positive integer `k` accepts a defined value exactly
      when it is an array of at most `k` elements that all pass the callback;
      `array()` sets no bound of its own but keeps the receiver's. */
  lemma ArrayModifier(d: TypeDesc, k: int, v: JsVal)
    requires IsDefined(v)
    ensures k <= 0 ==> ArrayTypeOf(d, Num(Integral(k))) == Throws(ArraySizeNotPositive)
    ensures k > 0 ==> (
      && ArrayTypeOf(d, Num(Integral(k))).Ok?
      && ArrayTypeOf(d, Num(Integral(k))).value.name == d.name + "[" + IntToString(k) + "]"
      && (Matches(ArrayTypeOf(d, Num(Integral(k))).value, v) <==>
          IsArray(v) && |v.elems| <= k && forall x :: x in v.elems ==> d.callback(x)))
    ensures ArrayTypeOf(d, Undef).Ok? && ArrayTypeOf(d, Undef).value.name == d.name + "[]"
    ensures Matches(ArrayTypeOf(d, Undef).value, v) <==>
      IsArray(v) && !(d.size > 0 && |v.elems| > d.size) && forall x :: x in v.elems ==> d.callback(x)
    ensures ArrayTypeOf(d, Str("3")) == Throws(ArraySizeNotInteger)
  {
    assert !IsDefined(Undef);
    var open := ArrayTypeOf(d, Undef).value;
    assert open == Cloned(d).(isArray := true, name := d.name + "[]");
    assert open.size == d.size;
    if IsArray(v) {
      var xs := v.elems;
      assert (forall x :: x in xs ==> d.callback(x)) <==> forall i :: 0 <= i < |xs| ==> d.callback(xs[i]);
    }
  }

  /** Chaining `t.optional().array(k)` on any type object `t`: the receiver
      and the intermediate object are left as they were, and the result is a
      new object carrying the receiver's callback and repeatable flag, both
      modifiers' flags, and a name built from the clone's default name. */
  method ModifierChainLeavesReceiver(t: TypeObject, k: int) returns (u: Result<TypeObject>)
    ensures t.Value() == old(t.Value())
    ensures k <= 0 ==> u == Throws(ArraySizeNotPositive)
    ensures k > 0 ==> u.Ok? && fresh(u.value) && u.value != t
    ensures k > 0 ==> u.Ok? && u.value.Value() == TypeDesc(DefaultName + "[" + IntToString(k) + "]", t.callback, true, true, k, t.repeatable)
  {
    var o := t.Optional();
    u := o.Array(Num(Integral(k)));
  }
}
