/** The per-argument record the argument checker builds (`argvStruct`), and
    `_argv.checkArg`, which decides whether one argument matches any of the
    alternatives its signature allows. */
module ArgCheck {
  import opened Values
  import opened Modes
  import opened TypeGrammar
  import opened CustomType
  import DetailType

  /** One alternative of a signature: a type name (one `|`-separated part of
      a string signature) or a `simpli.Type` object. */
  datatype Alt = AltName(name: string) | AltType(t: TypeDesc)

  /** The error codes written into a record. */
  datatype ErrTag = MismatchArgNumber | UnexpectedDatatype

  /** `simpli.argv.MISMATCH_ARGNUMBER` and `simpli.argv.UNEXPECTED_DATATYPE`. */
  function ErrTagText(e: ErrTag): string
  {
    match e
    case MismatchArgNumber => "{MISMATCH_ARGNUMBER}"
    case UnexpectedDatatype => "{UNEXPECTED_DATATYPE}"
  }

  /** One element of `argvStruct`. `signature` is absent until a signature
      entry is bound to the argument, and `error` until one is recorded. */
  datatype ArgRecord = ArgRecord(
    valid: bool,
    index: nat,
    value: JsVal,
    expected: string,
    given: string,
    signature: Option<seq<Alt>>,
    optional: bool,
    error: Option<ErrTag>)

  /** The record built for the argument at `index` before any signature is read. */
  function NewRecord(index: nat, value: JsVal): ArgRecord
  {
    ArgRecord(false, index, value, "", DetailType.DetailType(value), None, false, None)
  }

  /** Specification of the loop of `checkArg` over the alternatives still to
      be examined, with `ret` the verdict so far. A `simpli.Type` is always
      consulted; a name is always parsed (an unrecognised one throws) but only
      checked while no earlier alternative has matched, so a name that throws
      in STRICT mode is harmless after a match. */
  function CheckAlts(v: JsVal, alts: seq<Alt>, ret: bool, mode: Mode): Result<bool>
    decreases |alts|
  {
    if alts == [] then Ok(ret)
    else match alts[0]
      case AltType(t) => CheckAlts(v, alts[1..], ret || Matches(t, v), mode)
      case AltName(s) =>
        match ParseTypeToken(s)
        case None => Throws(UnrecognizedDataType(s))
        case Some(tok) =>
          if ret then CheckAlts(v, alts[1..], ret, mode)
          else
            match IsType(v, Resolve(tok).0, Resolve(tok).1, mode)
            case Throws(e) => Throws(e)
            case Ok(b) => CheckAlts(v, alts[1..], b, mode)
  }

  /** Specification of `checkArg`: an absent value passes an optional record
      outright; otherwise some alternative must accept it. */
  function CheckArgSpec(rec: ArgRecord, mode: Mode): Result<bool>
  {
    if rec.signature.None? then Throws(MissingSignature)
    else CheckAlts(rec.value, rec.signature.value, rec.optional && !IsDefined(rec.value), mode)
  }

  method CheckArg(rec: ArgRecord, mode: Mode) returns (r: Result<bool>)
    ensures r == CheckArgSpec(rec, mode)
  {
    if rec.signature.None? {
      return Throws(MissingSignature);
    }
    var alts := rec.signature.value;
    var ret := rec.optional && !IsDefined(rec.value);
    for i := 0 to |alts|
      invariant CheckAlts(rec.value, alts[i..], ret, mode) == CheckArgSpec(rec, mode)
    {
      assert alts[i..][1..] == alts[i + 1..];
      match alts[i]
      case AltType(t) =>
        if Matches(t, rec.value) {
          ret := true;
        }
      case AltName(s) =>
        var group := ParseTypeToken(s);
        if group.None? {
          return Throws(UnrecognizedDataType(s));
        }
        if !ret {
          var (dataType, size) := Resolve(group.value);
          var b := IsType(rec.value, dataType, size, mode);
          if b.Throws? {
            return Throws(b.error);
          }
          if b.value {
            ret := true;
          }
        }
    }
    return Ok(ret);
  }

  /** Whether one alternative, checked on its own, accepts `v`. */
  predicate Accepts(v: JsVal, alt: Alt, mode: Mode)
  {
    match alt
    case AltType(t) => Matches(t, v)
    case AltName(s) =>
      ParseTypeToken(s).Some? &&
      IsType(v, Resolve(ParseTypeToken(s).value).0, Resolve(ParseTypeToken(s).value).1, mode) == Ok(true)
  }

  predicate AnyAccepts(v: JsVal, alts: seq<Alt>, mode: Mode)
  {
    exists i :: 0 <= i < |alts| && Accepts(v, alts[i], mode)
  }

  predicate AllNamesParse(alts: seq<Alt>)
  {
    forall i :: 0 <= i < |alts| && alts[i].AltName? ==> ParseTypeToken(alts[i].name).Some?
  }

  /** A name that throws when it is checked in STRICT mode. */
  predicate ExtendedName(alt: Alt)
  {
    alt.AltName? && ParseTypeToken(alt.name).Some? && !IsBasicName(Resolve(ParseTypeToken(alt.name).value).0)
  }

  lemma AnyAcceptsCons(v: JsVal, alts: seq<Alt>, mode: Mode)
    requires alts != []
    ensures AnyAccepts(v, alts, mode) <==> Accepts(v, alts[0], mode) || AnyAccepts(v, alts[1..], mode)
  {
    if AnyAccepts(v, alts[1..], mode) {
      var i :| 0 <= i < |alts[1..]| && Accepts(v, alts[1..][i], mode);
      assert alts[i + 1] == alts[1..][i];
    }
    if AnyAccepts(v, alts, mode) && !Accepts(v, alts[0], mode) {
      var i :| 0 <= i < |alts| && Accepts(v, alts[i], mode);
      assert alts[1..][i - 1] == alts[i];
    }
  }

  /** Whenever the check returns, its verdict is the OR of the starting
      verdict and every alternative. */
  lemma {:induction false} CheckAltsIsOr(v: JsVal, alts: seq<Alt>, ret: bool, mode: Mode)
    requires CheckAlts(v, alts, ret, mode).Ok?
    ensures CheckAlts(v, alts, ret, mode).value <==> ret || AnyAccepts(v, alts, mode)
    decreases |alts|
  {
    if alts != [] {
      AnyAcceptsCons(v, alts, mode);
      match alts[0]
      case AltType(t) =>
        CheckAltsIsOr(v, alts[1..], ret || Matches(t, v), mode);
      case AltName(s) =>
        if ret {
          CheckAltsIsOr(v, alts[1..], ret, mode);
        } else {
          var tok := ParseTypeToken(s).value;
          CheckAltsIsOr(v, alts[1..], IsType(v, Resolve(tok).0, Resolve(tok).1, mode).value, mode);
        }
    }
  }

  /** In EXTEND mode a check over recognised names never throws. */
  lemma {:induction false} CheckAltsExtendDecides(v: JsVal, alts: seq<Alt>, ret: bool)
    requires AllNamesParse(alts)
    ensures CheckAlts(v, alts, ret, Extend).Ok?
    decreases |alts|
  {
    if alts != [] {
      AllNamesParseRest(alts);
      match alts[0]
      case AltType(t) =>
        CheckAltsExtendDecides(v, alts[1..], ret || Matches(t, v));
      case AltName(s) =>
        var tok := ParseTypeToken(s).value;
        IsTypeThrows(v, Resolve(tok).0, Resolve(tok).1, Extend);
        if ret {
          CheckAltsExtendDecides(v, alts[1..], ret);
        } else {
          CheckAltsExtendDecides(v, alts[1..], IsType(v, Resolve(tok).0, Resolve(tok).1, Extend).value);
        }
    }
  }

  /** An extended name is reached with nothing accepted before it. */
  predicate ReachesExtended(v: JsVal, alts: seq<Alt>)
  {
    exists k :: 0 <= k < |alts| && ExtendedName(alts[k]) && !AnyAccepts(v, alts[..k], Strict)
  }

  lemma ReachesExtendedCons(v: JsVal, alts: seq<Alt>)
    requires alts != []
    ensures ReachesExtended(v, alts) <==>
      ExtendedName(alts[0]) || (!Accepts(v, alts[0], Strict) && ReachesExtended(v, alts[1..]))
  {
    var rest := alts[1..];
    forall k | 1 <= k <= |alts|
      ensures AnyAccepts(v, alts[..k], Strict) <==> Accepts(v, alts[0], Strict) || AnyAccepts(v, rest[..k - 1], Strict)
    {
      assert alts[..k][1..] == rest[..k - 1];
      AnyAcceptsCons(v, alts[..k], Strict);
    }
    assert !AnyAccepts(v, alts[..0], Strict);
    if ReachesExtended(v, rest) {
      var k :| 0 <= k < |rest| && ExtendedName(rest[k]) && !AnyAccepts(v, rest[..k], Strict);
      assert alts[k + 1] == rest[k];
    }
    if ReachesExtended(v, alts) {
      var k :| 0 <= k < |alts| && ExtendedName(alts[k]) && !AnyAccepts(v, alts[..k], Strict);
      if k > 0 {
        assert rest[k - 1] == alts[k];
      }
    }
  }

  lemma AllNamesParseRest(alts: seq<Alt>)
    requires alts != [] && AllNamesParse(alts)
    ensures AllNamesParse(alts[1..])
  {
    var rest := alts[1..];
    forall i | 0 <= i < |rest| && rest[i].AltName? ensures ParseTypeToken(rest[i].name).Some? {
      assert rest[i] == alts[i + 1];
    }
  }

  /** In STRICT mode a check over recognised names throws exactly when an
      extended name is reached before anything has matched. */
  lemma {:induction false} CheckAltsStrictThrows(v: JsVal, alts: seq<Alt>, ret: bool)
    requires AllNamesParse(alts)
    ensures CheckAlts(v, alts, ret, Strict).Throws? <==>
      !ret && exists k :: 0 <= k < |alts| && ExtendedName(alts[k]) && !AnyAccepts(v, alts[..k], Strict)
    decreases |alts|
  {
    if alts != [] {
      var rest := alts[1..];
      AllNamesParseRest(alts);
      ReachesExtendedCons(v, alts);
      match alts[0]
      case AltType(t) =>
        CheckAltsStrictThrows(v, rest, ret || Matches(t, v));
      case AltName(s) =>
        var tok := ParseTypeToken(s).value;
        IsTypeThrows(v, Resolve(tok).0, Resolve(tok).1, Strict);
        if ret {
          CheckAltsStrictThrows(v, rest, ret);
        } else if IsType(v, Resolve(tok).0, Resolve(tok).1, Strict).Ok? {
          CheckAltsStrictThrows(v, rest, IsType(v, Resolve(tok).0, Resolve(tok).1, Strict).value);
        }
    }
  }

  /** The order of alternatives matters in STRICT mode: `number|integer`
      accepts a number, but throws on a string, and `integer|number` throws
      even on a number. */
  lemma StrictModeIsLazy()
    ensures CheckAlts(Num(Integral(1)), [AltName("number"), AltName("integer")], false, Strict) == Ok(true)
    ensures CheckAlts(Str("a"), [AltName("number"), AltName("integer")], false, Strict) == Throws(ExtendedTypeInStrictMode)
    ensures CheckAlts(Num(Integral(1)), [AltName("integer"), AltName("number")], false, Strict) == Throws(ExtendedTypeInStrictMode)
  {
    assert ParseTypeToken("number") == Some(Plain("number"));
    assert ParseTypeToken("integer") == Some(Plain("integer"));
    assert [AltName("number"), AltName("integer")][1..] == [AltName("integer")];
  }
}
