/** `simpli.detailTypeOf`: the type text the argument checker reports as
    "given" for each actual argument. */
module DetailType {
  import opened Text
  import opened Values

  /** The class an array's elements share: "array" when there are none,
      "mixed" when two of them disagree. */
  function ElementClass(xs: seq<JsVal>): string
  {
    if |xs| == 0 then "array"
    else if forall i :: 0 <= i < |xs| ==> ClassName(xs[i]) == ClassName(xs[0]) then ClassName(xs[0])
    else "mixed"
  }

  /** Specification of the detail type: the lower-cased class name of a
      non-array, and `<element class>[<length>]` lower-cased for an array. */
  function DetailType(v: JsVal): string
  {
    if v.Arr? then Lower(ElementClass(v.elems)) + "[" + NatToString(|v.elems|) + "]"
    else Lower(ClassName(v))
  }

  method DetailTypeOf(arg: JsVal) returns (r: string)
    ensures r == DetailType(arg)
  {
    var result: string;
    if IsArray(arg) {
      var xs := arg.elems;
      var lastElType := "array";
      for i := 0 to |xs|
        invariant lastElType == if i == 0 then "array" else ElementClass(xs[..i])
      {
        ElementClassStep(xs, i);
        if lastElType == "array" {
          lastElType := ClassName(xs[i]);
        } else {
          if lastElType != ClassName(xs[i]) {
            lastElType := "mixed";
          }
        }
      }
      assert xs[..|xs|] == xs;
      result := lastElType + "[" + NatToString(|xs|) + "]";
      LowerSuffix(lastElType, |xs|);
    } else {
      result := ClassName(arg);
    }
    r := Lower(result);
  }

  lemma ClassNameNotMarker(v: JsVal)
    ensures ClassName(v) != "array" && ClassName(v) != "mixed"
  {
  }

  /** How the element class of a prefix grows by one element. */
  lemma ElementClassStep(xs: seq<JsVal>, i: nat)
    requires i < |xs|
    ensures i == 0 ==> ElementClass(xs[..i + 1]) == ClassName(xs[i])
    ensures i > 0 ==>
      ElementClass(xs[..i + 1]) == if ElementClass(xs[..i]) == ClassName(xs[i]) then ClassName(xs[i]) else "mixed"
  {
    var p, q := xs[..i], xs[..i + 1];
    assert forall k :: 0 <= k < i ==> q[k] == p[k];
    assert q[i] == xs[i];
    ClassNameNotMarker(xs[i]);
    if i > 0 {
      ClassNameNotMarker(xs[0]);
    }
  }

  lemma LowerSuffix(c: string, n: nat)
    ensures Lower(c + "[" + NatToString(n) + "]") == Lower(c) + "[" + NatToString(n) + "]"
  {
    var d := NatToString(n);
    var s := c + "[" + d + "]";
    var r := Lower(c) + "[" + d + "]";
    assert |Lower(s)| == |r|;
    forall i | 0 <= i < |s| ensures Lower(s)[i] == r[i] {
      if i < |c| {
        assert s[i] == c[i];
      } else if i == |c| || i == |s| - 1 {
      } else {
        assert s[i] == d[i - |c| - 1];
      }
    }
  }

  /** The lowered class names the worked examples meet. */
  lemma LowerNumber()
    ensures Lower("Number") == "number" && Lower("mixed") == "mixed"
  {
  }

  lemma LowerString()
    ensures Lower("String") == "string" && Lower("Undefined") == "undefined"
  {
  }

  lemma DetailNumber(v: JsVal)
    requires v.Num?
    ensures DetailType(v) == "number"
  {
    LowerNumber();
  }

  /** Worked values of the detail type for arrays. */
  lemma DetailTypeExamples()
    ensures DetailType(Arr([])) == "array[0]"
    ensures DetailType(Arr([Num(Integral(1)), Num(Integral(2)), Num(Integral(3))])) == "number[3]"
    ensures DetailType(Arr([Num(Integral(1)), Str("a")])) == "mixed[2]"
    ensures DetailType(Str("a")) == "string" && DetailType(Undef) == "undefined"
  {
    LowerNumber();
    LowerString();
    var three := [Num(Integral(1)), Num(Integral(2)), Num(Integral(3))];
    assert ElementClass(three) == "Number";
    var two := [Num(Integral(1)), Str("a")];
    assert ClassName(two[1]) != ClassName(two[0]);
    assert ElementClass(two) == "mixed";
  }
}
