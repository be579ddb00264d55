/** `simpli.argv` as the library runs it: the records live in an array that
    the walk over the signature list updates in place. Each method is proved
    equal to its specification in `ArgvSpec`. */
module Argv {
  import opened Values
  import opened Modes
  import opened ArgCheck
  import opened Signature
  import opened ArgvSpec

  /** The record updates of `_argv.MISMATCH_ARGNUMBER`. */
  method MarkMismatch(a: array<ArgRecord>)
    modifies a
    ensures a[..] == MarkAll(old(a[..]))
  {
    for i := 0 to a.Length
      invariant forall k :: 0 <= k < i ==> a[k] == Mark(old(a[k]))
      invariant forall k :: i <= k < a.Length ==> a[k] == old(a[k])
    {
      a[i] := a[i].(valid := false, error := Some(MismatchArgNumber));
    }
  }

  /** The loop that binds a repeatable entry to every argument from `from`
      on; it leaves the argument position past the last argument. */
  method BindRest(a: array<ArgRecord>, from: nat, e: Entry) returns (argI: nat)
    modifies a
    ensures a[..] == BindFrom(old(a[..]), from, e)
    ensures argI == Max(from, a.Length)
  {
    argI := from;
    while argI < a.Length
      invariant from <= argI <= Max(from, a.Length)
      invariant forall k :: 0 <= k < a.Length ==>
        a[k] == if from <= k < argI then Bind(old(a[k]), e) else old(a[k])
    {
      a[argI] := a[argI].(expected := e.expected, signature := Some(e.alts), optional := e.optional);
      argI := argI + 1;
    }
  }

  /** One turn of the `while (signI < signLen)` loop of `simpli.argv`, after
      entry `signI` has been read as `e`. */
  method WalkStep(a: array<ArgRecord>, c: Counters, e: Entry, signI: nat, signLen: nat)
    returns (r: Result<Counters>)
    modifies a
    ensures var next := Step(WalkState(c, old(a[..])), e, signI, signLen);
      && (next.Throws? ==> r == Throws(next.error))
      && (next.Ok? ==> r == Ok(next.value.c) && a[..] == next.value.recs)
  {
    var argI, repCount, lastOpt, lastRep, mismatch := c.argI, c.repCount, c.lastOpt, c.lastRep, c.mismatch;
    if argI < a.Length {
      a[argI] := Bind(a[argI], e);
    }
    if e.optional {
      lastOpt := true;
    } else {
      if lastOpt {
        return Throws(OptionalNotLast);
      }
      if argI == a.Length {
        MarkMismatch(a);
        mismatch := true;
      }
    }
    repCount := repCount + (if e.repeatable then 1 else 0);
    if repCount == 1 {
      if lastRep {
        return Throws(RepeatableNotLast);
      } else if signI + 1 != signLen {
        lastRep := true;
      }
      argI := BindRest(a, argI + 1, e);
    } else if repCount == 2 {
      return Throws(OnlyOneRepeatable);
    }
    return Ok(Counters(argI + 1, repCount, lastOpt, lastRep, mismatch));
  }

  /** The `while (signI < signLen)` loop of `simpli.argv`. A TypeError about
      the declaration ends it; otherwise it returns its counters and leaves
      the records bound. */
  method WalkSignatures(a: array<ArgRecord>, sigs: seq<Param>) returns (r: Result<Counters>)
    modifies a
    ensures var w := Walk(sigs, 0, WalkState(StartCounters, old(a[..])));
      && (w.Throws? ==> r == Throws(w.error))
      && (w.Ok? ==> r == Ok(w.value.c) && a[..] == w.value.recs)
  {
    var c := StartCounters;
    var signI := 0;
    ghost var w0 := Walk(sigs, 0, WalkState(StartCounters, a[..]));
    while signI < |sigs|
      invariant signI <= |sigs|
      invariant Walk(sigs, signI, WalkState(c, a[..])) == w0
      decreases |sigs| - signI
    {
      var parsed := ParseEntry(sigs[signI]);
      if parsed.Throws? {
        return Throws(parsed.error);
      }
      var next := WalkStep(a, c, parsed.value, signI, |sigs|);
      if next.Throws? {
        return Throws(next.error);
      }
      c := next.value;
      signI := signI + 1;
    }
    return Ok(c);
  }

  /** The type-check loop: the first record whose check fails. */
  method FindInvalid(a: array<ArgRecord>, mode: Mode) returns (r: Result<Option<nat>>)
    ensures r == FirstFailure(a[..], mode, 0)
  {
    for i := 0 to a.Length
      invariant FirstFailure(a[..], mode, i) == FirstFailure(a[..], mode, 0)
    {
      var ok := CheckArg(a[i], mode);
      if ok.Throws? {
        return Throws(ok.error);
      }
      if !ok.value {
        return Ok(Some(i));
      }
    }
    return Ok(None);
  }

  /** The argument list of the message, built by the handler's loop. */
  method ArgMessage(a: array<ArgRecord>, index: int) returns (argMessage: string)
    ensures argMessage == ArgList(ValuesOf(a[..]), index, 0)
  {
    ghost var vals := ValuesOf(a[..]);
    ghost var whole := ArgList(vals, index, 0);
    argMessage := "";
    var i := 0;
    var l := a.Length;
    while i < l
      invariant 0 <= i <= l
      invariant argMessage + ArgList(vals, index, i) == whole
    {
      ghost var before := argMessage;
      var argValue := ShowValue(a[i].value);
      var shown := if i == index then "-->" + argValue + "<--" else argValue;
      assert shown == ShowArg(vals, index, i) by {
        assert a[i].value == vals[i];
      }
      argMessage := argMessage + shown;
      i := i + 1;
      if i < l {
        argMessage := argMessage + ", ";
      }
      assert argMessage == before + shown + (if i < |vals| then ", " else "");
      ArgListStep(vals, index, i - 1, before, argMessage, whole);
    }
  }

  lemma ArgListStep(vals: seq<JsVal>, index: int, k: nat, before: string, after: string, whole: string)
    requires k < |vals| && before + ArgList(vals, index, k) == whole
    requires after == before + ShowArg(vals, index, k) + (if k + 1 < |vals| then ", " else "")
    ensures after + ArgList(vals, index, k + 1) == whole
  {
    var sep := if k + 1 < |vals| then ", " else "";
    AppendPiece(before, ShowArg(vals, index, k), sep, after, ArgList(vals, index, k + 1));
  }

  lemma AppendPiece(before: string, shown: string, sep: string, after: string, tail: string)
    requires after == before + shown + sep
    ensures after + tail == before + (shown + sep + tail)
  {
  }

  /** The `arguments` list of the callback's diagnostic. */
  method CallbackArguments(a: array<ArgRecord>) returns (reports: seq<ArgReport>)
    ensures reports == Reports(a[..])
  {
    reports := [];
    for k := 0 to a.Length
      invariant reports == Reports(a[..k])
    {
      var r := a[k];
      reports := reports + [ArgReport(r.valid, r.index, r.value, r.expected, r.given, r.error)];
    }
    assert a[..a.Length] == a[..];
  }

  /** `_argv.invalidHandler`, with no stack trace available. */
  method InvalidHandler(inv: Invalid, a: array<ArgRecord>, hasCallback: bool, errorMode: ErrorMode)
    returns (out: Outcome)
    ensures out == Handle(inv, a[..], hasCallback, errorMode)
  {
    var invalidMessage := InvalidMessage(inv, a[..]);
    var argMessage := ArgMessage(a, InvalidIndex(inv));
    var message := InvokedBy + "(" + argMessage + "): " + invalidMessage;
    var callback: Option<Diagnostic> := None;
    if hasCallback {
      var reports := CallbackArguments(a);
      callback := Some(Diagnostic(reports, InvokedBy, "", "", ""));
    }
    if errorMode == ErrorReporting {
      return Outcome(callback, Throws(Reported(message)));
    }
    return Outcome(callback, Ok(false));
  }

  /** The end of `simpli.argv`, once the walk has bound the records: the
      mismatch report, or the type-check loop and its report. Only the first
      record that fails its check is written, with `UNEXPECTED_DATATYPE`. */
  method Conclude(a: array<ArgRecord>, cfg: ArgvConfig, mismatch: bool, signLen: nat, hasCallback: bool)
    returns (out: Outcome)
    modifies a
    ensures out == Verdict(cfg.mode, cfg.errorMode, mismatch, old(a[..]), signLen, hasCallback)
    ensures var f := FirstFailure(old(a[..]), cfg.mode, 0);
      a[..] == if !mismatch && f.Ok? && f.value.Some?
        then old(a[..])[f.value.value := old(a[..])[f.value.value].(error := Some(UnexpectedDatatype))]
        else old(a[..])
  {
    if mismatch {
      out := InvalidHandler(Mismatch(signLen), a, hasCallback, cfg.errorMode);
      return;
    }
    var failure := FindInvalid(a, cfg.mode);
    if failure.Throws? {
      return Outcome(None, Throws(failure.error));
    }
    if failure.value.None? {
      return Outcome(None, Ok(true));
    }
    var i := failure.value.value;
    a[i] := a[i].(error := Some(UnexpectedDatatype));
    out := InvalidHandler(Unexpected(i), a, hasCallback, cfg.errorMode);
  }

  /** `simpli.argv(arguments, signatures..., callback)` under the settings
      held by `cfg`. */
  method Argv(cfg: ArgvConfig, args: seq<JsVal>, params: seq<Param>) returns (out: Outcome)
    ensures out == ArgvOutcome(cfg.mode, cfg.errorMode, args, params)
  {
    var thisArgs := params;
    var hasCallback := false;
    if |thisArgs| > 0 && thisArgs[|thisArgs| - 1] == PVal(Func) {
      hasCallback := true;
      thisArgs := thisArgs[..|thisArgs| - 1];
    }
    assert SplitCallback(params) == (thisArgs, hasCallback);
    var signatures: seq<Param>;
    if |thisArgs| > 1 || (|thisArgs| == 1 && ((thisArgs[0].PVal? && thisArgs[0].v.Str?) || thisArgs[0].PType?)) {
      signatures := thisArgs;
    } else if |thisArgs| == 1 && ListItems(thisArgs[0]).Some? {
      signatures := ListItems(thisArgs[0]).value;
    } else {
      return Outcome(None, Throws(BadSignatureList));
    }
    assert SignatureList(thisArgs) == Ok(signatures);
    var argvStruct := new ArgRecord[|args|](i requires 0 <= i < |args| => NewRecord(i, args[i]));
    assert argvStruct[..] == InitialRecords(args);
    ghost var w := Walk(signatures, 0, WalkState(StartCounters, InitialRecords(args)));
    var walked := WalkSignatures(argvStruct, signatures);
    if walked.Throws? {
      return Outcome(None, Throws(walked.error));
    }
    var mismatch := walked.value.mismatch;
    if walked.value.argI < argvStruct.Length {
      MarkMismatch(argvStruct);
      mismatch := true;
    }
    ghost var fin := Finish(w.value);
    assert fin.c.mismatch == mismatch && fin.recs == argvStruct[..];
    out := Conclude(argvStruct, cfg, mismatch, |signatures|, hasCallback);
  }
}
