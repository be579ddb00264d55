/** What a call of `simpli.argv` promises, stated over the declared entries
    and the argument values rather than over the walk that binds them. */
module ArgvProperties {
  import opened Text
  import opened Values
  import opened Modes
  import opened TypeGrammar
  import opened CustomType
  import opened ArgCheck
  import opened Signature
  import opened ArgvSpec
  import opened ArgvWalk
  import DetailType

  /** The entries a parameter list declares, when it is a signature list
      whose entries all read and are well declared. */
  function Declaration(params: seq<Param>): Option<seq<Entry>>
  {
    var sigs := SignatureList(SplitCallback(params).0);
    if sigs.Ok? && AllParse(sigs.value) && WellDeclared(Entries(sigs.value)) then Some(Entries(sigs.value))
    else None
  }

  /** The number of arguments fits the declaration: every required entry
      has an argument, and extra arguments only go to a repeatable entry. */
  predicate ArityMatches(n: nat, es: seq<Entry>)
  {
    !Short(n, es) && (HasRepeatable(es) || n <= |es|)
  }

  /** The entry argument `i` is checked against. */
  function EntryFor(es: seq<Entry>, i: nat): Entry
    requires |es| > 0
  {
    if i < |es| then es[i] else es[|es| - 1]
  }

  /** The check of one argument against its entry: an absent value passes an
      optional entry, otherwise one of the alternatives must accept it. */
  function CheckAgainst(v: JsVal, e: Entry, mode: Mode): Result<bool>
  {
    CheckAlts(v, e.alts, e.optional && !IsDefined(v), mode)
  }

  predicate AllAccepted(args: seq<JsVal>, es: seq<Entry>, mode: Mode)
    requires |es| > 0
  {
    forall i :: 0 <= i < |args| ==> CheckAgainst(args[i], EntryFor(es, i), mode) == Ok(true)
  }

  /** `i` is the first argument its entry rejects, the ones before it passing. */
  predicate FirstRejected(args: seq<JsVal>, es: seq<Entry>, mode: Mode, i: nat)
    requires |es| > 0
  {
    && i < |args|
    && CheckAgainst(args[i], EntryFor(es, i), mode) == Ok(false)
    && forall j :: 0 <= j < i ==> CheckAgainst(args[j], EntryFor(es, j), mode) == Ok(true)
  }

  lemma {:induction false} FirstFailingNone(cs: seq<Result<bool>>, from: nat)
    requires from <= |cs|
    ensures FirstFailing(cs, from) == Ok(None) <==> forall i :: from <= i < |cs| ==> cs[i] == Ok(true)
    decreases |cs| - from
  {
    if from < |cs| && cs[from] == Ok(true) {
      FirstFailingNone(cs, from + 1);
    }
  }

  lemma {:induction false} FirstFailingSome(cs: seq<Result<bool>>, from: nat)
    requires from <= |cs| && FirstFailing(cs, from).Ok? && FirstFailing(cs, from).value.Some?
    ensures var k := FirstFailing(cs, from).value.value;
      cs[k] == Ok(false) && forall i :: from <= i < k ==> cs[i] == Ok(true)
    decreases |cs| - from
  {
    if cs[from] == Ok(true) {
      FirstFailingSome(cs, from + 1);
    }
  }

  lemma {:induction false} FirstFailingThrows(cs: seq<Result<bool>>, from: nat)
    requires from <= |cs| && FirstFailing(cs, from).Throws?
    ensures exists k :: from <= k < |cs| && cs[k] == Throws(FirstFailing(cs, from).error)
    decreases |cs| - from
  {
    if cs[from].Ok? {
      FirstFailingThrows(cs, from + 1);
    }
  }

  lemma {:induction false} FirstFailingAt(cs: seq<Result<bool>>, from: nat, i: nat)
    requires from <= i < |cs| && cs[i] == Ok(false)
    requires forall j :: from <= j < i ==> cs[j] == Ok(true)
    ensures FirstFailing(cs, from) == Ok(Some(i))
    decreases i - from
  {
    if from < i {
      FirstFailingAt(cs, from + 1, i);
    }
  }

  /** The scan for a failing record stops at the first record whose check
      does not pass: it finds none exactly when every check passes. */
  lemma {:induction false} FirstFailureNone(recs: seq<ArgRecord>, mode: Mode, from: nat)
    requires from <= |recs|
    ensures FirstFailure(recs, mode, from) == Ok(None) <==>
      forall i :: from <= i < |recs| ==> CheckArgSpec(recs[i], mode) == Ok(true)
  {
    FirstFailingNone(Checks(recs, mode), from);
  }

  /** A record the scan stops at fails its check, and every record before it passes. */
  lemma {:induction false} FirstFailureSome(recs: seq<ArgRecord>, mode: Mode, from: nat)
    requires from <= |recs|
    requires FirstFailure(recs, mode, from).Ok? && FirstFailure(recs, mode, from).value.Some?
    ensures var k := FirstFailure(recs, mode, from).value.value;
      && from <= k < |recs|
      && CheckArgSpec(recs[k], mode) == Ok(false)
      && forall i :: from <= i < k ==> CheckArgSpec(recs[i], mode) == Ok(true)
  {
    FirstFailingSome(Checks(recs, mode), from);
  }

  /** A check that throws ends the scan with the error of some record's check. */
  lemma {:induction false} FirstFailureThrows(recs: seq<ArgRecord>, mode: Mode, from: nat)
    requires from <= |recs| && FirstFailure(recs, mode, from).Throws?
    ensures exists k :: from <= k < |recs| && CheckArgSpec(recs[k], mode) == Throws(FirstFailure(recs, mode, from).error)
  {
    FirstFailingThrows(Checks(recs, mode), from);
  }

  /** With a matching arity every record is bound to its entry, so checking
      it is checking the argument against that entry. */
  lemma RecordCheck(args: seq<JsVal>, es: seq<Entry>, mode: Mode, i: nat)
    requires ArityMatches(|args|, es) && i < |args|
    ensures |es| > 0
    ensures CheckArgSpec(Shape(InitialRecords(args), es, HasRepeatable(es), false)[i], mode)
      == CheckAgainst(args[i], EntryFor(es, i), mode)
  {
  }

  /** The walk, restated for a parameter list that declares `es`. */
  lemma WalkOfDeclaration(args: seq<JsVal>, params: seq<Param>, es: seq<Entry>)
    requires Declaration(params) == Some(es)
    ensures var sigs := SignatureList(SplitCallback(params).0);
      && sigs.Ok? && |sigs.value| == |es|
      && var w := Walk(sigs.value, 0, WalkState(StartCounters, InitialRecords(args)));
      && w.Ok?
      && (Finish(w.value).c.mismatch <==> !ArityMatches(|args|, es))
      && Finish(w.value).recs == Shape(InitialRecords(args), es, HasRepeatable(es), !ArityMatches(|args|, es))
  {
    WalkTheorem(SignatureList(SplitCallback(params).0).value, args);
  }

  /** A parameter list that declares nothing usable throws a TypeError about
      the declaration before any argument is looked at. */
  lemma DeclarationErrorThrows(mode: Mode, errorMode: ErrorMode, args: seq<JsVal>, params: seq<Param>)
    requires Declaration(params).None?
    ensures var out := ArgvOutcome(mode, errorMode, args, params);
      out.callback.None? && out.result.Throws? && !out.result.error.Reported?
  {
    var sigs := SignatureList(SplitCallback(params).0);
    if sigs.Ok? {
      WalkTheorem(sigs.value, args);
    }
    if sigs.Ok? && Walk(sigs.value, 0, WalkState(StartCounters, InitialRecords(args))).Throws? {
      ReadErrorsNotReported(sigs.value);
      WalkErrorNotReported(Reads(sigs.value), 0, WalkState(StartCounters, InitialRecords(args)));
    }
  }

  lemma {:induction false} WalkErrorNotReported(rs: seq<Result<Entry>>, signI: nat, st: WalkState)
    requires signI <= |rs|
    requires forall j :: 0 <= j < |rs| && rs[j].Throws? ==> !rs[j].error.Reported?
    requires WalkReads(rs, signI, st).Throws?
    ensures !WalkReads(rs, signI, st).error.Reported?
    decreases |rs| - signI
  {
    if rs[signI].Ok? {
      var next := Step(st, rs[signI].value, signI, |rs|);
      if next.Ok? {
        WalkErrorNotReported(rs, signI + 1, next.value);
      }
    }
  }

  lemma ParseSignatureErrors(p: Param)
    ensures ParseSignature(p).Throws? ==> !ParseSignature(p).error.Reported?
  {
  }

  lemma ReadErrorsNotReported(sigs: seq<Param>)
    ensures forall j :: 0 <= j < |sigs| && Reads(sigs)[j].Throws? ==> !Reads(sigs)[j].error.Reported?
  {
    forall j | 0 <= j < |sigs| && Reads(sigs)[j].Throws? ensures !Reads(sigs)[j].error.Reported? {
      ParseSignatureErrors(sigs[j]);
    }
  }

  /** `simpli.argv` returns true exactly when the parameters declare a
      well-formed signature list, the number of arguments fits it, and every
      argument passes the check against its entry. */
  lemma ArgvAccepts(mode: Mode, errorMode: ErrorMode, args: seq<JsVal>, params: seq<Param>)
    ensures ArgvOutcome(mode, errorMode, args, params).result == Ok(true) <==>
      && Declaration(params).Some?
      && ArityMatches(|args|, Declaration(params).value)
      && (|args| == 0 || AllAccepted(args, Declaration(params).value, mode))
    ensures ArgvOutcome(mode, errorMode, args, params).result == Ok(true) ==>
      ArgvOutcome(mode, errorMode, args, params).callback.None?
  {
    if Declaration(params).None? {
      DeclarationErrorThrows(mode, errorMode, args, params);
    } else {
      var es := Declaration(params).value;
      OutcomeOfDeclaration(mode, errorMode, args, params, es);
      DeclaredAccepts(mode, errorMode, args, es, SplitCallback(params).1);
    }
  }

  lemma DeclaredAccepts(mode: Mode, errorMode: ErrorMode, args: seq<JsVal>, es: seq<Entry>, hasCallback: bool)
    ensures var out := DeclaredOutcome(mode, errorMode, args, es, hasCallback);
      && (out.result == Ok(true) <==> ArityMatches(|args|, es) && (|args| == 0 || AllAccepted(args, es, mode)))
      && (out.result == Ok(true) ==> out.callback.None?)
  {
    DeclaredTrue(mode, errorMode, args, es, hasCallback);
    if ArityMatches(|args|, es) {
      ScanPasses(mode, args, es);
    }
  }

  /** The call returns true only when the arity fits and the scan finds nothing. */
  lemma DeclaredTrue(mode: Mode, errorMode: ErrorMode, args: seq<JsVal>, es: seq<Entry>, hasCallback: bool)
    ensures var out := DeclaredOutcome(mode, errorMode, args, es, hasCallback);
      && (out.result == Ok(true) <==> ArityMatches(|args|, es) && FirstFailure(BoundRecords(args, es), mode, 0) == Ok(None))
      && (out.result == Ok(true) ==> out.callback.None?)
  {
  }

  /** The scan over the bound records finds nothing exactly when every argument passes. */
  lemma ScanPasses(mode: Mode, args: seq<JsVal>, es: seq<Entry>)
    requires ArityMatches(|args|, es)
    ensures FirstFailure(BoundRecords(args, es), mode, 0) == Ok(None) <==> |args| == 0 || AllAccepted(args, es, mode)
  {
    var recs := BoundRecords(args, es);
    FirstFailureNone(recs, mode, 0);
    forall i | 0 <= i < |args|
      ensures CheckArgSpec(recs[i], mode) == CheckAgainst(args[i], EntryFor(es, i), mode)
    {
      RecordCheck(args, es, mode, i);
    }
  }

  /** The records once a declaration `es` has been bound to `args`. */
  function BoundRecords(args: seq<JsVal>, es: seq<Entry>): seq<ArgRecord>
  {
    Shape(InitialRecords(args), es, HasRepeatable(es), !ArityMatches(|args|, es))
  }

  /** What the call does after the walk over a declaration `es`. */
  function DeclaredOutcome(mode: Mode, errorMode: ErrorMode, args: seq<JsVal>, es: seq<Entry>, hasCallback: bool): Outcome
  {
    Verdict(mode, errorMode, !ArityMatches(|args|, es), BoundRecords(args, es), |es|, hasCallback)
  }

  lemma OutcomeOfDeclaration(mode: Mode, errorMode: ErrorMode, args: seq<JsVal>, params: seq<Param>, es: seq<Entry>)
    requires Declaration(params) == Some(es)
    ensures ArgvOutcome(mode, errorMode, args, params) == DeclaredOutcome(mode, errorMode, args, es, SplitCallback(params).1)
  {
    WalkOfDeclaration(args, params, es);
  }

  /** The handler on a mismatch, for records that all carry the mark. */
  lemma HandleMismatch(m: nat, recs: seq<ArgRecord>, args: seq<JsVal>, hasCallback: bool, errorMode: ErrorMode)
    requires |recs| == |args|
    requires forall i :: 0 <= i < |args| ==>
      recs[i].index == i && recs[i].value == args[i] && !recs[i].valid && recs[i].error == Some(MismatchArgNumber)
    ensures var out := Handle(Mismatch(m), recs, hasCallback, errorMode);
      && out.result == (if errorMode == ErrorReporting then
          Throws(Reported(InvokedBy + "(" + ArgList(args, -1, 0) + "): "
            + ("Argument number mismatch: Expected " + NatToString(m) + " argument(s), " + NatToString(|args|) + " given")))
        else Ok(false))
      && (out.callback.Some? <==> hasCallback)
      && (out.callback.Some? ==>
          |out.callback.value.arguments| == |args|
          && forall i :: 0 <= i < |args| ==>
               var r := out.callback.value.arguments[i];
               r.index == i && r.value == args[i] && !r.valid && r.error == Some(MismatchArgNumber))
  {
    assert ValuesOf(recs) == args;
  }

  /** Too many or too few arguments: every argument is reported with
      `MISMATCH_ARGNUMBER`, and the message gives the number of entries and
      the number of arguments. */
  lemma ArityMismatchReported(mode: Mode, errorMode: ErrorMode, args: seq<JsVal>, params: seq<Param>)
    requires Declaration(params).Some? && !ArityMatches(|args|, Declaration(params).value)
    ensures var es := Declaration(params).value;
      var out := ArgvOutcome(mode, errorMode, args, params);
      && out.result == (if errorMode == ErrorReporting then
          Throws(Reported(InvokedBy + "(" + ArgList(args, -1, 0) + "): "
            + ("Argument number mismatch: Expected " + NatToString(|es|) + " argument(s), " + NatToString(|args|) + " given")))
        else Ok(false))
      && (out.callback.Some? <==> SplitCallback(params).1)
      && (out.callback.Some? ==>
          |out.callback.value.arguments| == |args|
          && forall i :: 0 <= i < |args| ==>
               var r := out.callback.value.arguments[i];
               r.index == i && r.value == args[i] && !r.valid && r.error == Some(MismatchArgNumber))
  {
    var es := Declaration(params).value;
    OutcomeOfDeclaration(mode, errorMode, args, params, es);
    var recs := BoundRecords(args, es);
    assert ArgvOutcome(mode, errorMode, args, params) == Handle(Mismatch(|es|), recs, SplitCallback(params).1, errorMode);
    MarkedRecords(args, es);
    HandleMismatch(|es|, recs, args, SplitCallback(params).1, errorMode);
  }

  /** On a mismatch every bound record keeps its position and value and carries the mark. */
  lemma MarkedRecords(args: seq<JsVal>, es: seq<Entry>)
    requires !ArityMatches(|args|, es)
    ensures var recs := BoundRecords(args, es);
      |recs| == |args| && forall i :: 0 <= i < |args| ==>
        recs[i].index == i && recs[i].value == args[i] && !recs[i].valid && recs[i].error == Some(MismatchArgNumber)
  {
    var recs0 := InitialRecords(args);
    var recs := BoundRecords(args, es);
    forall i | 0 <= i < |args|
      ensures recs[i].index == i && recs[i].value == args[i] && !recs[i].valid && recs[i].error == Some(MismatchArgNumber)
    {
      assert recs0[i] == NewRecord(i, args[i]);
    }
  }

  /** The scan stops at a record that fails when every record before it passes. */
  lemma {:induction false} FirstFailureAt(recs: seq<ArgRecord>, mode: Mode, from: nat, i: nat)
    requires from <= i < |recs| && CheckArgSpec(recs[i], mode) == Ok(false)
    requires forall j :: from <= j < i ==> CheckArgSpec(recs[j], mode) == Ok(true)
    ensures FirstFailure(recs, mode, from) == Ok(Some(i))
  {
    FirstFailingAt(Checks(recs, mode), from, i);
  }

  /** The scan over the bound records stops at the first argument its entry rejects. */
  lemma ScanFindsRejected(mode: Mode, args: seq<JsVal>, es: seq<Entry>, i: nat)
    requires ArityMatches(|args|, es) && |es| > 0 && FirstRejected(args, es, mode, i)
    ensures FirstFailure(BoundRecords(args, es), mode, 0) == Ok(Some(i))
  {
    var recs := BoundRecords(args, es);
    forall j | 0 <= j <= i
      ensures CheckArgSpec(recs[j], mode) == CheckAgainst(args[j], EntryFor(es, j), mode)
    {
      RecordCheck(args, es, mode, j);
    }
    FirstFailureAt(recs, mode, 0, i);
  }

  /** An argument of the wrong type: the first one rejected is highlighted,
      reported with `UNEXPECTED_DATATYPE`, and the message names what its
      entry expects and the detailed type it has. */
  lemma UnexpectedDatatypeReported(mode: Mode, errorMode: ErrorMode, args: seq<JsVal>, params: seq<Param>, i: nat)
    requires Declaration(params).Some? && ArityMatches(|args|, Declaration(params).value)
    requires |Declaration(params).value| > 0 && FirstRejected(args, Declaration(params).value, mode, i)
    ensures var es := Declaration(params).value;
      var out := ArgvOutcome(mode, errorMode, args, params);
      && out.result == (if errorMode == ErrorReporting then
          Throws(Reported(InvokedBy + "(" + ArgList(args, i, 0) + "): "
            + ("Expected '" + EntryFor(es, i).expected + "', '" + DetailType.DetailType(args[i]) + "' given")))
        else Ok(false))
      && (out.callback.Some? <==> SplitCallback(params).1)
      && (out.callback.Some? ==>
          |out.callback.value.arguments| == |args|
          && forall j :: 0 <= j < |args| ==>
               var r := out.callback.value.arguments[j];
               && r.index == j && r.value == args[j] && !r.valid
               && r.expected == EntryFor(es, j).expected && r.given == DetailType.DetailType(args[j])
               && r.error == (if j == i then Some(UnexpectedDatatype) else None))
  {
    var es := Declaration(params).value;
    OutcomeOfDeclaration(mode, errorMode, args, params, es);
    DeclaredUnexpected(mode, errorMode, args, es, SplitCallback(params).1, i);
  }

  /** `UnexpectedDatatypeReported` for the declaration `es` read from the parameters. */
  lemma DeclaredUnexpected(mode: Mode, errorMode: ErrorMode, args: seq<JsVal>, es: seq<Entry>, hasCallback: bool, i: nat)
    requires ArityMatches(|args|, es) && |es| > 0 && FirstRejected(args, es, mode, i)
    ensures var out := DeclaredOutcome(mode, errorMode, args, es, hasCallback);
      && out.result == (if errorMode == ErrorReporting then
          Throws(Reported(InvokedBy + "(" + ArgList(args, i, 0) + "): "
            + ("Expected '" + EntryFor(es, i).expected + "', '" + DetailType.DetailType(args[i]) + "' given")))
        else Ok(false))
      && (out.callback.Some? <==> hasCallback)
      && (out.callback.Some? ==>
          |out.callback.value.arguments| == |args|
          && forall j :: 0 <= j < |args| ==>
               var r := out.callback.value.arguments[j];
               && r.index == j && r.value == args[j] && !r.valid
               && r.expected == EntryFor(es, j).expected && r.given == DetailType.DetailType(args[j])
               && r.error == (if j == i then Some(UnexpectedDatatype) else None))
  {
    ScanFindsRejected(mode, args, es, i);
    var recs := BoundRecords(args, es);
    var recs' := recs[i := recs[i].(error := Some(UnexpectedDatatype))];
    assert DeclaredOutcome(mode, errorMode, args, es, hasCallback) == Handle(Unexpected(i), recs', hasCallback, errorMode);
    BoundRecordAt(args, es, i);
    assert ValuesOf(recs') == args;
    HandleUnexpected(i, recs', args, hasCallback, errorMode);
    FlaggedReports(args, es, i);
  }

  /** The reports after the wrong type at `i` is flagged: each holds its
      argument, bound to its entry, and only report `i` carries an error. */
  lemma FlaggedReports(args: seq<JsVal>, es: seq<Entry>, i: nat)
    requires ArityMatches(|args|, es) && i < |args|
    ensures var recs := BoundRecords(args, es);
      var reports := Reports(recs[i := recs[i].(error := Some(UnexpectedDatatype))]);
      |reports| == |args| && forall j :: 0 <= j < |args| ==>
        var r := reports[j];
        && r.index == j && r.value == args[j] && !r.valid
        && r.expected == EntryFor(es, j).expected && r.given == DetailType.DetailType(args[j])
        && r.error == (if j == i then Some(UnexpectedDatatype) else None)
  {
    var recs := BoundRecords(args, es);
    var recs' := recs[i := recs[i].(error := Some(UnexpectedDatatype))];
    forall j | 0 <= j < |args|
      ensures var r := Report(recs'[j]);
        && r.index == j && r.value == args[j] && !r.valid
        && r.expected == EntryFor(es, j).expected && r.given == DetailType.DetailType(args[j])
        && r.error == (if j == i then Some(UnexpectedDatatype) else None)
    {
      BoundRecordAt(args, es, j);
    }
  }

  /** With a matching arity, record `i` holds argument `i` bound to its entry. */
  lemma BoundRecordAt(args: seq<JsVal>, es: seq<Entry>, i: nat)
    requires ArityMatches(|args|, es) && i < |args|
    ensures |es| > 0
    ensures BoundRecords(args, es)[i] == Bind(NewRecord(i, args[i]), EntryFor(es, i))
  {
  }

  /** The handler on a wrong type at `i`, for records holding the argument values. */
  lemma HandleUnexpected(i: nat, recs: seq<ArgRecord>, args: seq<JsVal>, hasCallback: bool, errorMode: ErrorMode)
    requires i < |recs| && ValuesOf(recs) == args
    ensures var out := Handle(Unexpected(i), recs, hasCallback, errorMode);
      && out.result == (if errorMode == ErrorReporting then
          Throws(Reported(InvokedBy + "(" + ArgList(args, i, 0) + "): "
            + ("Expected '" + recs[i].expected + "', '" + recs[i].given + "' given")))
        else Ok(false))
      && (out.callback.Some? <==> hasCallback)
      && (out.callback.Some? ==>
          |out.callback.value.arguments| == |args|
          && out.callback.value.arguments == Reports(recs))
  {
  }

  /** The callback is called exactly when one was given and a failure about
      the arguments is reported; ERROR mode throws that report and SILENT
      mode returns false instead. */
  lemma ReportingFollowsErrorMode(mode: Mode, errorMode: ErrorMode, args: seq<JsVal>, params: seq<Param>)
    ensures var out := ArgvOutcome(mode, errorMode, args, params);
      var reported := out.result == Ok(false) || (out.result.Throws? && out.result.error.Reported?);
      && (out.callback.Some? <==> SplitCallback(params).1 && reported)
      && (out.result == Ok(false) ==> errorMode == Silent)
      && (out.result.Throws? && out.result.error.Reported? ==> errorMode == ErrorReporting)
  {
    var sigs := SignatureList(SplitCallback(params).0);
    if sigs.Ok? {
      var w := Walk(sigs.value, 0, WalkState(StartCounters, InitialRecords(args)));
      if w.Throws? {
        ReadErrorsNotReported(sigs.value);
        WalkErrorNotReported(Reads(sigs.value), 0, WalkState(StartCounters, InitialRecords(args)));
      } else {
        var fin := Finish(w.value);
        if !fin.c.mismatch {
          var f := FirstFailure(fin.recs, mode, 0);
          if f.Throws? {
            FirstFailureThrows(fin.recs, mode, 0);
            var k :| 0 <= k < |fin.recs| && CheckArgSpec(fin.recs[k], mode) == Throws(f.error);
            CheckArgNotReported(fin.recs[k], mode);
          }
        }
      }
    }
  }

  lemma CheckArgNotReported(rec: ArgRecord, mode: Mode)
    ensures CheckArgSpec(rec, mode).Throws? ==> !CheckArgSpec(rec, mode).error.Reported?
  {
    if rec.signature.Some? {
      CheckAltsNotReported(rec.value, rec.signature.value, rec.optional && !IsDefined(rec.value), mode);
    }
  }

  lemma {:induction false} CheckAltsNotReported(v: JsVal, alts: seq<Alt>, ret: bool, mode: Mode)
    ensures CheckAlts(v, alts, ret, mode).Throws? ==> !CheckAlts(v, alts, ret, mode).error.Reported?
    decreases |alts|
  {
    if alts != [] {
      match alts[0]
      case AltType(t) =>
        CheckAltsNotReported(v, alts[1..], ret || Matches(t, v), mode);
      case AltName(s) =>
        var tok := ParseTypeToken(s);
        if tok.Some? {
          if ret {
            CheckAltsNotReported(v, alts[1..], ret, mode);
          } else {
            var b := IsType(v, Resolve(tok.value).0, Resolve(tok.value).1, mode);
            IsTypeThrows(v, Resolve(tok.value).0, Resolve(tok.value).1, mode);
            if b.Ok? {
              CheckAltsNotReported(v, alts[1..], b.value, mode);
            }
          }
        }
    }
  }
}
