/** Reading one entry of a signature list, as the loop of `simpli.argv` does
    before it binds the entry to an argument: a `simpli.Type` object, or a
    string such as `"[...number|string[]]"` that may be wrapped in `[]`
    (optional), prefixed by `...` (repeatable) and lists `|`-separated type
    names. */
module Signature {
  import opened Text
  import opened Values
  import opened TypeGrammar
  import opened CustomType
  import opened ArgCheck

  /** A parameter given to `simpli.argv` after the arguments object: any
      value, a `simpli.Type` object, or an array of parameters. */
  datatype Param = PVal(v: JsVal) | PType(t: TypeDesc) | PList(items: seq<Param>)

  /** A signature entry once read: its flags, the text reported as
      `expected`, and its alternatives. */
  datatype Entry = Entry(optional: bool, repeatable: bool, expected: string, alts: seq<Alt>)

  /** `_argv.optionalRegEx`: `[`, at least one non-white-space character, `]`. */
  predicate OptionalForm(s: string)
  {
    |s| >= 3 && s[0] == '[' && s[|s| - 1] == ']' && forall k :: 1 <= k < |s| - 1 ==> !IsJsSpace(s[k])
  }

  /** The first part that is not a type name, if any. */
  function FirstInvalid(parts: seq<string>): (r: Option<string>)
    ensures r.None? <==> forall k :: 0 <= k < |parts| ==> ParseTypeToken(parts[k]).Some?
    ensures r.Some? ==> r.value in parts && ParseTypeToken(r.value).None?
  {
    if parts == [] then None
    else if ParseTypeToken(parts[0]).None? then Some(parts[0])
    else
      var r := FirstInvalid(parts[1..]);
      assert forall k :: 1 <= k < |parts| ==> parts[k] == parts[1..][k - 1];
      r
  }

  function Names(parts: seq<string>): (r: seq<Alt>)
    ensures |r| == |parts| && forall k :: 0 <= k < |parts| ==> r[k] == AltName(parts[k])
  {
    seq(|parts|, k requires 0 <= k < |parts| => AltName(parts[k]))
  }

  /** The text inside the `[]` of an optional entry. */
  function Unwrap(s: string): string
  {
    if OptionalForm(s) then s[1..|s| - 1] else s
  }

  predicate HasDots(s: string)
  {
    |s| >= 3 && s[..3] == "..."
  }

  /** The text after the `...` of a repeatable entry. */
  function Undot(s: string): string
  {
    if HasDots(s) then s[3..] else s
  }

  /** Reading the alternatives of an entry whose wrapper and prefix are gone.
      A lone `...` strips to nothing but is not counted as repeatable. */
  function ParseBody(optional: bool, dots: bool, body: string): Result<Entry>
  {
    var parts := Split(body, '|');
    if FirstInvalid(parts).Some? then Throws(InvalidSignatureType(FirstInvalid(parts).value))
    else Ok(Entry(optional, dots && body != "", ReplaceFirst(body, '|', ','), Names(parts)))
  }

  /** Specification of reading one entry. A `simpli.Type` brings its own
      flags and name; a string loses its `[]` wrapper and then its `...`
      prefix, has only its first `|` turned into `,` for `expected`, and
      throws on the first part that is not a type name; anything else throws. */
  function ParseSignature(p: Param): Result<Entry>
  {
    match p
    case PType(t) => Ok(Entry(t.optional, t.repeatable, t.name, [AltType(t)]))
    case PVal(v) =>
      if !v.Str? then Throws(BadSignatureFormat)
      else ParseBody(OptionalForm(v.s), HasDots(Unwrap(v.s)), Undot(Unwrap(v.s)))
    case PList(_) => Throws(BadSignatureFormat)
  }

  method ParseEntry(p: Param) returns (r: Result<Entry>)
    ensures r == ParseSignature(p)
  {
    if p.PType? {
      return Ok(Entry(p.t.optional, p.t.repeatable, p.t.name, [AltType(p.t)]));
    }
    if !(p.PVal? && p.v.Str?) {
      return Throws(BadSignatureFormat);
    }
    var s := p.v.s;
    var optional := OptionalForm(s);
    if optional {
      s := s[1..|s| - 1];
    }
    var repeatable := false;
    if |s| >= 3 && s[..3] == "..." {
      s := s[3..];
      repeatable := s != "";
    }
    var expected := ReplaceFirst(s, '|', ',');
    var signArray := Split(s, '|');
    for i := 0 to |signArray|
      invariant FirstInvalid(signArray[i..]) == FirstInvalid(signArray)
    {
      assert signArray[i..][1..] == signArray[i + 1..];
      if ParseTypeToken(signArray[i]).None? {
        return Throws(InvalidSignatureType(signArray[i]));
      }
    }
    assert FirstInvalid(signArray[|signArray|..]) == None;
    return Ok(Entry(optional, repeatable, expected, Names(signArray)));
  }

  /** How a string entry is written: the alternatives joined by `|`, with
      `...` in front for a repeatable entry and `[]` around an optional one. */
  function Render(optional: bool, repeatable: bool, body: string): string
  {
    var s1 := if repeatable then "..." + body else body;
    if optional then "[" + s1 + "]" else s1
  }

  function Spellings(ts: seq<Token>): (r: seq<string>)
    ensures |r| == |ts| && forall k :: 0 <= k < |ts| ==> r[k] == Spelling(ts[k])
  {
    seq(|ts|, k requires 0 <= k < |ts| => Spelling(ts[k]))
  }

  lemma UnwrapRender(s: string)
    ensures s == if OptionalForm(s) then "[" + Unwrap(s) + "]" else Unwrap(s)
  {
    if OptionalForm(s) {
      assert s == [s[0]] + s[1..|s| - 1] + [s[|s| - 1]];
    }
  }

  lemma UndotRender(s: string)
    ensures s == if HasDots(s) then "..." + Undot(s) else Undot(s)
  {
    if HasDots(s) {
      assert s == s[..3] + s[3..];
    }
  }

  /** A successful read of a body yields its `|`-separated parts, all of
      them type names, and a non-empty body. */
  lemma ParseBodySound(optional: bool, dots: bool, body: string)
    requires ParseBody(optional, dots, body).Ok?
    ensures var e := ParseBody(optional, dots, body).value;
      && e.optional == optional && e.repeatable == dots
      && |e.alts| >= 1
      && (forall k :: 0 <= k < |e.alts| ==> e.alts[k].AltName? && ParseTypeToken(e.alts[k].name).Some?)
      && Join(AltNames(e.alts), '|') == body
  {
    var parts := Split(body, '|');
    assert AltNames(Names(parts)) == parts;
  }

  /** The names of alternatives that are all names. */
  function AltNames(alts: seq<Alt>): (r: seq<string>)
    requires forall k :: 0 <= k < |alts| ==> alts[k].AltName?
    ensures |r| == |alts| && forall k :: 0 <= k < |alts| ==> r[k] == alts[k].name
  {
    seq(|alts|, k requires 0 <= k < |alts| => alts[k].name)
  }

  /** Reading a string entry recovers how it was written: the alternatives
      are recognised type names that, joined by `|` and decorated by the
      flags, give back the string. */
  lemma ParseSignatureSound(s: string)
    requires ParseSignature(PVal(Str(s))).Ok?
    ensures var e := ParseSignature(PVal(Str(s))).value;
      && |e.alts| >= 1
      && (forall k :: 0 <= k < |e.alts| ==> e.alts[k].AltName? && ParseTypeToken(e.alts[k].name).Some?)
      && s == Render(e.optional, e.repeatable, Join(AltNames(e.alts), '|'))
  {
    UnwrapRender(s);
    UndotRender(Unwrap(s));
    ParseBodySound(OptionalForm(s), HasDots(Unwrap(s)), Undot(Unwrap(s)));
  }

  /** The characters of a join are the separator and the characters of the parts. */
  lemma {:induction false} JoinChars(parts: seq<string>, sep: char)
    requires |parts| >= 1 && !IsJsSpace(sep)
    requires forall p, k :: p in parts && 0 <= k < |p| ==> !IsJsSpace(p[k])
    ensures forall k :: 0 <= k < |Join(parts, sep)| ==> !IsJsSpace(Join(parts, sep)[k])
    ensures |parts[0]| >= 1 ==> |Join(parts, sep)| >= 1 && Join(parts, sep)[0] == parts[0][0]
    decreases |parts|
  {
    if |parts| > 1 {
      assert parts[0] in parts;
      assert forall p :: p in parts[1..] ==> p in parts;
      JoinChars(parts[1..], sep);
      var j := Join(parts, sep);
      var rest := Join(parts[1..], sep);
      assert j == parts[0] + [sep] + rest;
      forall k | 0 <= k < |j| ensures !IsJsSpace(j[k]) {
        if k < |parts[0]| {
          assert j[k] == parts[0][k];
        } else if k > |parts[0]| {
          assert j[k] == rest[k - |parts[0]| - 1];
        }
      }
    } else {
      assert parts[0] in parts;
    }
  }

  /** The `|`-joined spellings of well-formed tokens: no white space, and a
      first character that is neither `[` nor `.`. */
  lemma BodyChars(ts: seq<Token>)
    requires |ts| >= 1 && forall k :: 0 <= k < |ts| ==> WellFormedToken(ts[k])
    ensures var body := Join(Spellings(ts), '|');
      && |body| >= 1 && body[0] != '[' && body[0] != '.'
      && forall k :: 0 <= k < |body| ==> !IsJsSpace(body[k])
  {
    var parts := Spellings(ts);
    forall p, k | p in parts && 0 <= k < |p| ensures !IsJsSpace(p[k]) {
      var i :| 0 <= i < |parts| && parts[i] == p;
      SpellingChars(ts[i]);
    }
    SpellingChars(ts[0]);
    JoinChars(parts, '|');
  }

  /** Reading the joined spellings of well-formed tokens gives them back. */
  lemma ParseBodyComplete(optional: bool, dots: bool, ts: seq<Token>)
    requires |ts| >= 1 && forall k :: 0 <= k < |ts| ==> WellFormedToken(ts[k])
    ensures var body := Join(Spellings(ts), '|');
      ParseBody(optional, dots, body) == Ok(Entry(optional, dots, ReplaceFirst(body, '|', ','), Names(Spellings(ts))))
  {
    var parts := Spellings(ts);
    forall k | 0 <= k < |ts| ensures '|' !in parts[k] && ParseTypeToken(parts[k]).Some? {
      SpellingChars(ts[k]);
      ParseTypeTokenComplete(ts[k]);
    }
    SplitJoin(parts, '|');
    BodyChars(ts);
  }

  lemma WrapOptional(s1: string)
    requires |s1| >= 1 && s1[0] != '[' && forall k :: 0 <= k < |s1| ==> !IsJsSpace(s1[k])
    ensures OptionalForm("[" + s1 + "]") && Unwrap("[" + s1 + "]") == s1
    ensures !OptionalForm(s1) && Unwrap(s1) == s1
  {
    var s := "[" + s1 + "]";
    assert s[1..|s| - 1] == s1;
    assert forall k :: 1 <= k < |s| - 1 ==> s[k] == s1[k - 1];
  }

  lemma AddDots(body: string)
    requires |body| >= 1 && body[0] != '.'
    ensures HasDots("..." + body) && Undot("..." + body) == body
    ensures !HasDots(body) && Undot(body) == body
  {
    assert ("..." + body)[..3] == "..." && ("..." + body)[3..] == body;
  }

  /** Writing well-formed type names as an entry and reading it back gives
      the same flags and names, with `expected` the body with its first `|`
      turned into `,`. */
  lemma ParseSignatureComplete(optional: bool, repeatable: bool, ts: seq<Token>)
    requires |ts| >= 1 && forall k :: 0 <= k < |ts| ==> WellFormedToken(ts[k])
    ensures var body := Join(Spellings(ts), '|');
      ParseSignature(PVal(Str(Render(optional, repeatable, body)))) ==
        Ok(Entry(optional, repeatable, ReplaceFirst(body, '|', ','), Names(Spellings(ts))))
  {
    var body := Join(Spellings(ts), '|');
    BodyChars(ts);
    AddDots(body);
    var s1 := if repeatable then "..." + body else body;
    assert forall k :: 0 <= k < |s1| ==> !IsJsSpace(s1[k]) by {
      if repeatable {
        assert forall k :: 3 <= k < |s1| ==> s1[k] == body[k - 3];
      }
    }
    WrapOptional(s1);
    ParseBodyComplete(optional, repeatable, ts);
  }
}
