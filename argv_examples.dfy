/** Calls of `simpli.argv` worked through end to end. */
module ArgvExamples {
  import opened Text
  import opened Values
  import opened TypeGrammar
  import opened Modes
  import opened ArgCheck
  import opened Signature
  import opened ArgvSpec
  import opened ArgvWalk
  import opened ArgvProperties

  const StringEntry := Entry(false, false, "string", [AltName("string")])
  const NumberEntry := Entry(false, false, "number", [AltName("number")])

  lemma NoDots(s: string)
    requires |s| > 0 && s[0] != '.'
    ensures !HasDots(s)
  {
    if |s| >= 3 {
      assert s[..3][0] == s[0];
    }
  }

  lemma ReadStringEntry()
    ensures ParseSignature(PVal(Str("string"))) == Ok(StringEntry)
  {
    assert !OptionalForm("string") && Unwrap("string") == "string";
    NoDots("string");
    assert Undot("string") == "string";
    assert Split("string", '|') == ["string"];
    assert ParseTypeToken("string") == Some(Plain("string"));
    assert FirstInvalid(["string"]) == None;
    assert '|' !in "string";
    assert ReplaceFirst("string", '|', ',') == "string";
    assert Names(["string"]) == [AltName("string")];
    assert ParseBody(false, false, "string") == Ok(Entry(false, false, "string", [AltName("string")]));
  }

  lemma ReadNumberEntry()
    ensures ParseSignature(PVal(Str("number"))) == Ok(NumberEntry)
  {
    assert !OptionalForm("number") && Unwrap("number") == "number";
    NoDots("number");
    assert Undot("number") == "number";
    assert Split("number", '|') == ["number"];
    assert ParseTypeToken("number") == Some(Plain("number"));
    assert FirstInvalid(["number"]) == None;
    assert '|' !in "number";
    assert ReplaceFirst("number", '|', ',') == "number";
    assert Names(["number"]) == [AltName("number")];
    assert ParseBody(false, false, "number") == Ok(Entry(false, false, "number", [AltName("number")]));
  }

  /** The single parameter `"string"` declares one required string. */
  lemma DeclaresString()
    ensures Declaration([PVal(Str("string"))]) == Some([StringEntry])
  {
    ReadStringEntry();
    var ps := [PVal(Str("string"))];
    assert SplitCallback(ps) == (ps, false);
    assert SignatureList(ps) == Ok(ps);
    assert AllParse(ps);
    assert Entries(ps) == [StringEntry];
    assert WellDeclared([StringEntry]);
  }

  lemma StringChecks()
    ensures CheckAgainst(Str("x"), StringEntry, Extend) == Ok(true)
    ensures CheckAgainst(Num(Integral(1)), StringEntry, Extend) == Ok(false)
  {
    assert ParseTypeToken("string") == Some(Plain("string"));
  }

  /** `simpli.argv(arguments, "string")` accepts one string. */
  lemma OneStringAccepted(errorMode: ErrorMode)
    ensures ArgvOutcome(Extend, errorMode, [Str("x")], [PVal(Str("string"))]) == Outcome(None, Ok(true))
  {
    DeclaresString();
    StringChecks();
    ArgvAccepts(Extend, errorMode, [Str("x")], [PVal(Str("string"))]);
  }

  lemma ShowOne()
    ensures ArgList([Num(Integral(1))], 0, 0) == "-->1<--"
  {
    assert ShowValue(Num(Integral(1))) == "1";
  }

  /** The same call with a number: the report highlights it, names what was
      expected and what was given, and ERROR mode throws it. */
  lemma OneNumberRejected()
    ensures ArgvOutcome(Extend, ErrorReporting, [Num(Integral(1))], [PVal(Str("string"))])
      == Outcome(None, Throws(Reported("function" + "(" + "-->1<--" + "): " + ("Expected '" + "string" + "', '" + "number" + "' given"))))
  {
    var args := [Num(Integral(1))];
    var ps := [PVal(Str("string"))];
    DeclaresString();
    StringChecks();
    UnexpectedDatatypeReported(Extend, ErrorReporting, args, ps, 0);
    var a := ArgList(args, 0, 0);
    var e := EntryFor([StringEntry], 0).expected;
    var g := DetailType.DetailType(args[0]);
    DetailType.DetailNumber(args[0]);
    ShowOne();
    assert a == "-->1<--" && e == "string" && g == "number";
  }

  /** With no argument at all the one required entry has none: the report
      gives one entry and zero arguments. */
  lemma MissingArgumentReported()
    ensures ArgvOutcome(Extend, ErrorReporting, [], [PVal(Str("string"))])
      == Outcome(None, Throws(Reported("function" + "(" + "" + "): "
           + ("Argument number mismatch: Expected " + "1" + " argument(s), " + "0" + " given"))))
  {
    DeclaresString();
    ArityMismatchReported(Extend, ErrorReporting, [], [PVal(Str("string"))]);
    assert NatToString(1) == "1" && NatToString(0) == "0";
    assert ArgList([], -1, 0) == "";
  }

  const OptStringEntry := Entry(true, false, "string", [AltName("string")])

  lemma ReadOptStringEntry()
    ensures ParseSignature(PVal(Str("[string]"))) == Ok(OptStringEntry)
  {
    assert OptionalForm("[string]");
    assert "[string]"[1..7] == "string";
    assert Unwrap("[string]") == "string";
    ReadStringEntry();
    NoDots("string");
  }

  /** `"number", "[string]"` declares a required number and an optional string. */
  lemma DeclaresNumberOptString()
    ensures Declaration([PVal(Str("number")), PVal(Str("[string]"))]) == Some([NumberEntry, OptStringEntry])
  {
    ReadNumberEntry();
    ReadOptStringEntry();
    var ps := [PVal(Str("number")), PVal(Str("[string]"))];
    assert SplitCallback(ps) == (ps, false);
    assert SignatureList(ps) == Ok(ps);
    assert AllParse(ps);
    assert Entries(ps) == [NumberEntry, OptStringEntry];
    assert WellDeclared([NumberEntry, OptStringEntry]);
  }

  lemma NumberChecks(v: JsVal)
    requires v == Num(Integral(1)) || v == Num(Integral(2)) || v == Num(Integral(3))
    ensures CheckAgainst(v, NumberEntry, Extend) == Ok(true)
    ensures CheckAgainst(v, OptStringEntry, Extend) == Ok(false)
    ensures CheckAgainst(Undef, OptStringEntry, Extend) == Ok(true)
  {
    assert ParseTypeToken("number") == Some(Plain("number"));
    assert ParseTypeToken("string") == Some(Plain("string"));
  }

  /** The optional trailing entry may be left out or given as `undefined`. */
  lemma OptionalMayBeAbsent(errorMode: ErrorMode)
    ensures ArgvOutcome(Extend, errorMode, [Num(Integral(1))], [PVal(Str("number")), PVal(Str("[string]"))])
      == Outcome(None, Ok(true))
    ensures ArgvOutcome(Extend, errorMode, [Num(Integral(1)), Undef], [PVal(Str("number")), PVal(Str("[string]"))])
      == Outcome(None, Ok(true))
  {
    var ps := [PVal(Str("number")), PVal(Str("[string]"))];
    var es := [NumberEntry, OptStringEntry];
    var a1, a2 := [Num(Integral(1))], [Num(Integral(1)), Undef];
    DeclaresNumberOptString();
    NumberChecks(Num(Integral(1)));
    assert EntryFor(es, 0) == NumberEntry && EntryFor(es, 1) == OptStringEntry;
    assert ArityMatches(|a1|, es) && AllAccepted(a1, es, Extend);
    assert ArityMatches(|a2|, es) && AllAccepted(a2, es, Extend);
    ArgvAccepts(Extend, errorMode, a1, ps);
    ArgvAccepts(Extend, errorMode, a2, ps);
  }

  /** A number where the optional string goes: SILENT mode returns false. */
  lemma OptionalOfWrongType()
    ensures ArgvOutcome(Extend, Silent, [Num(Integral(1)), Num(Integral(2))], [PVal(Str("number")), PVal(Str("[string]"))])
      == Outcome(None, Ok(false))
  {
    var ps := [PVal(Str("number")), PVal(Str("[string]"))];
    var args := [Num(Integral(1)), Num(Integral(2))];
    DeclaresNumberOptString();
    NumberChecks(Num(Integral(1)));
    NumberChecks(Num(Integral(2)));
    assert FirstRejected(args, [NumberEntry, OptStringEntry], Extend, 1);
    UnexpectedDatatypeReported(Extend, Silent, args, ps, 1);
  }

  const RepNumberEntry := Entry(false, true, "number", [AltName("number")])

  /** `"...number"` followed by a callback. */
  const NumbersThenCallback := [PVal(Str("...number")), PVal(Func)]

  lemma ReadRepNumberEntry()
    ensures ParseSignature(PVal(Str("...number"))) == Ok(RepNumberEntry)
  {
    assert !OptionalForm("...number");
    assert "...number"[..3] == "...";
    assert "...number"[3..] == "number";
    assert Undot(Unwrap("...number")) == "number";
    ReadNumberEntry();
  }

  /** `"...number"` declares one repeatable number. */
  lemma DeclaresRepNumber()
    ensures Declaration([PVal(Str("...number"))]) == Some([RepNumberEntry])
  {
    ReadRepNumberEntry();
    var ps := [PVal(Str("...number"))];
    assert SplitCallback(ps) == (ps, false);
    assert SignatureList(ps) == Ok(ps);
    assert AllParse(ps);
    assert Entries(ps) == [RepNumberEntry];
  }

  /** A trailing function is the callback, not a signature. */
  lemma DeclaresRepNumberWithCallback()
    ensures Declaration(NumbersThenCallback) == Declaration([PVal(Str("...number"))])
    ensures SplitCallback(NumbersThenCallback).1
  {
    var ps := [PVal(Str("...number"))];
    assert NumbersThenCallback == ps + [PVal(Func)];
    assert SplitCallback(NumbersThenCallback) == (ps, true);
  }

  lemma NumberAccepted(v: JsVal)
    requires v.Num?
    ensures CheckAgainst(v, RepNumberEntry, Extend) == Ok(true)
  {
    assert ParseTypeToken("number") == Some(Plain("number"));
  }

  lemma StringRejected(v: JsVal)
    requires v.Str?
    ensures CheckAgainst(v, RepNumberEntry, Extend) == Ok(false)
  {
    assert ParseTypeToken("number") == Some(Plain("number"));
  }

  /** A repeatable entry takes every argument from its position on: any
      non-empty run of numbers passes `"...number"`, however long. */
  lemma RepeatableTakesAll(errorMode: ErrorMode, xs: seq<JsVal>)
    requires |xs| >= 1 && forall k :: 0 <= k < |xs| ==> xs[k].Num?
    ensures ArgvOutcome(Extend, errorMode, xs, [PVal(Str("...number"))]) == Outcome(None, Ok(true))
  {
    DeclaresRepNumber();
    forall k | 0 <= k < |xs| ensures CheckAgainst(xs[k], EntryFor([RepNumberEntry], k), Extend) == Ok(true) {
      NumberAccepted(xs[k]);
    }
    assert ArityMatches(|xs|, [RepNumberEntry]);
    ArgvAccepts(Extend, errorMode, xs, [PVal(Str("...number"))]);
  }

  /** ... but not an empty one: the repeatable entry is required. */
  lemma RepeatableNeedsOne()
    ensures ArgvOutcome(Extend, Silent, [], [PVal(Str("...number"))]) == Outcome(None, Ok(false))
  {
    DeclaresRepNumber();
    ArityMismatchReported(Extend, Silent, [], [PVal(Str("...number"))]);
  }

  /** The first string among repeated numbers is the argument reported to the callback. */
  lemma RepeatableReportsIntruder(xs: seq<JsVal>, i: nat)
    requires i < |xs| && xs[i].Str? && forall k :: 0 <= k < i ==> xs[k].Num?
    ensures var out := ArgvOutcome(Extend, Silent, xs, NumbersThenCallback);
      && out.result == Ok(false)
      && out.callback.Some?
      && |out.callback.value.arguments| == |xs|
      && out.callback.value.arguments[i].error == Some(UnexpectedDatatype)
      && out.callback.value.arguments[i].expected == "number"
  {
    DeclaresRepNumber();
    DeclaresRepNumberWithCallback();
    forall k | 0 <= k < i ensures CheckAgainst(xs[k], EntryFor([RepNumberEntry], k), Extend) == Ok(true) {
      NumberAccepted(xs[k]);
    }
    StringRejected(xs[i]);
    assert FirstRejected(xs, [RepNumberEntry], Extend, i);
    assert EntryFor([RepNumberEntry], i).expected == "number";
    UnexpectedDatatypeReported(Extend, Silent, xs, NumbersThenCallback, i);
  }

  const RepStringEntry := Entry(false, true, "string", [AltName("string")])

  lemma ReadRepStringEntry()
    ensures ParseSignature(PVal(Str("...string"))) == Ok(RepStringEntry)
  {
    assert !OptionalForm("...string");
    assert "...string"[..3] == "...";
    assert "...string"[3..] == "string";
    assert Undot(Unwrap("...string")) == "string";
    ReadStringEntry();
  }

  /** Two repeatable entries are refused whatever the arguments. */
  lemma TwoRepeatablesRefused(mode: Mode, errorMode: ErrorMode, args: seq<JsVal>)
    ensures ArgvOutcome(mode, errorMode, args, [PVal(Str("...number")), PVal(Str("...string"))])
      == Outcome(None, Throws(OnlyOneRepeatable))
  {
    var sigs := [PVal(Str("...number")), PVal(Str("...string"))];
    ReadRepNumberEntry();
    ReadRepStringEntry();
    assert SplitCallback(sigs) == (sigs, false);
    var st0 := WalkState(StartCounters, InitialRecords(args));
    var st1 := Step(st0, RepNumberEntry, 0, 2);
    assert st1.Ok? && st1.value.c.repCount == 1 && st1.value.c.lastRep && !st1.value.c.lastOpt;
    assert Step(st1.value, RepStringEntry, 1, 2) == Throws(OnlyOneRepeatable);
    var rs := Reads(sigs);
    assert rs == [Ok(RepNumberEntry), Ok(RepStringEntry)];
    assert WalkReads(rs, 1, st1.value) == Throws(OnlyOneRepeatable);
    assert Walk(sigs, 0, st0) == Throws(OnlyOneRepeatable);
  }
}
