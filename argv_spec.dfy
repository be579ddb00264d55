/** Specification of `simpli.argv`: how the parameters become a signature
    list, how the walk over that list fills the argument records, which
    failure is reported, and what the invalid-argument handler produces. */
module ArgvSpec {
  import opened Text
  import opened Values
  import opened Modes
  import opened ArgCheck
  import opened Signature

  /** The scalar variables of the walk: the argument position `argI`, the
      number of repeatable entries seen, the flags `lastIsOptional` and
      `lastIsRepetable`, and whether an argument-number mismatch was found. */
  datatype Counters = Counters(argI: nat, repCount: nat, lastOpt: bool, lastRep: bool, mismatch: bool)

  datatype WalkState = WalkState(c: Counters, recs: seq<ArgRecord>)

  /** The records before any signature is read. */
  function InitialRecords(args: seq<JsVal>): (r: seq<ArgRecord>)
    ensures |r| == |args| && forall i :: 0 <= i < |args| ==> r[i] == NewRecord(i, args[i])
  {
    seq(|args|, i requires 0 <= i < |args| => NewRecord(i, args[i]))
  }

  const StartCounters := Counters(0, 0, false, false, false)

  /** Binding an entry to a record fills in `expected`, `signature` and `optional`. */
  function Bind(r: ArgRecord, e: Entry): ArgRecord
  {
    r.(expected := e.expected, signature := Some(e.alts), optional := e.optional)
  }

  /** What `_argv.MISMATCH_ARGNUMBER` writes into a record. */
  function Mark(r: ArgRecord): ArgRecord
  {
    r.(valid := false, error := Some(MismatchArgNumber))
  }

  function MarkAll(recs: seq<ArgRecord>): (r: seq<ArgRecord>)
    ensures |r| == |recs| && forall i :: 0 <= i < |recs| ==> r[i] == Mark(recs[i])
  {
    seq(|recs|, i requires 0 <= i < |recs| => Mark(recs[i]))
  }

  /** Binding an entry to every record from position `lo` on. */
  function BindFrom(recs: seq<ArgRecord>, lo: int, e: Entry): (r: seq<ArgRecord>)
    ensures |r| == |recs|
    ensures forall i :: 0 <= i < |recs| ==> r[i] == if lo <= i then Bind(recs[i], e) else recs[i]
  {
    seq(|recs|, i requires 0 <= i < |recs| => if lo <= i then Bind(recs[i], e) else recs[i])
  }

  function Max(a: int, b: int): int { if a < b then b else a }

  /** One turn of the walk after entry `signI` of `signLen` has been read as
      `e`: bind it to the current argument, check the declaration rules, note
      a required entry with no argument left, and let a repeatable entry take
      every remaining argument. */
  function Step(st: WalkState, e: Entry, signI: nat, signLen: nat): Result<WalkState>
  {
    var c := st.c;
    var n := |st.recs|;
    var recs1 := if c.argI < n then st.recs[c.argI := Bind(st.recs[c.argI], e)] else st.recs;
    if !e.optional && c.lastOpt then Throws(OptionalNotLast)
    else
      var mm := !e.optional && c.argI == n;
      var recs2 := if mm then MarkAll(recs1) else recs1;
      var rc := c.repCount + (if e.repeatable then 1 else 0);
      var lastOpt := c.lastOpt || e.optional;
      if rc == 1 then
        if c.lastRep then Throws(RepeatableNotLast)
        else Ok(WalkState(
          Counters(Max(c.argI + 1, n) + 1, rc, lastOpt, signI + 1 != signLen, c.mismatch || mm),
          BindFrom(recs2, c.argI + 1, e)))
      else if rc == 2 then Throws(OnlyOneRepeatable)
      else Ok(WalkState(Counters(c.argI + 1, rc, lastOpt, c.lastRep, c.mismatch || mm), recs2))
  }

  /** Every entry of the signature list, read. Reading has no effect, so the
      walk may as well consult these results one by one as it goes. */
  function Reads(sigs: seq<Param>): (rs: seq<Result<Entry>>)
    ensures |rs| == |sigs| && forall j :: 0 <= j < |sigs| ==> rs[j] == ParseSignature(sigs[j])
  {
    seq(|sigs|, j requires 0 <= j < |sigs| => ParseSignature(sigs[j]))
  }

  /** The walk over the read entries from `signI` on: an entry that could
      not be read ends it with its error. */
  function WalkReads(rs: seq<Result<Entry>>, signI: nat, st: WalkState): Result<WalkState>
    requires signI <= |rs|
    decreases |rs| - signI
  {
    if signI == |rs| then Ok(st)
    else if rs[signI].Throws? then Throws(rs[signI].error)
    else
      var next := Step(st, rs[signI].value, signI, |rs|);
      if next.Throws? then Throws(next.error)
      else WalkReads(rs, signI + 1, next.value)
  }

  /** The walk over the signature list from entry `signI` on. */
  function Walk(sigs: seq<Param>, signI: nat, st: WalkState): Result<WalkState>
    requires signI <= |sigs|
  {
    WalkReads(Reads(sigs), signI, st)
  }

  /** After the walk: arguments left over are a mismatch too. */
  function Finish(st: WalkState): WalkState
  {
    if st.c.argI < |st.recs| then WalkState(st.c.(mismatch := true), MarkAll(st.recs)) else st
  }

  /** The check of every record, in order. */
  function Checks(recs: seq<ArgRecord>, mode: Mode): (cs: seq<Result<bool>>)
    ensures |cs| == |recs| && forall j :: 0 <= j < |recs| ==> cs[j] == CheckArgSpec(recs[j], mode)
  {
    seq(|recs|, j requires 0 <= j < |recs| => CheckArgSpec(recs[j], mode))
  }

  /** The position of the first check result, from `from` on, that is not a
      pass; a check that throws ends the scan with its error. */
  function FirstFailing(cs: seq<Result<bool>>, from: nat): (r: Result<Option<nat>>)
    requires from <= |cs|
    ensures r.Ok? && r.value.Some? ==> from <= r.value.value < |cs|
    decreases |cs| - from
  {
    if from == |cs| then Ok(None)
    else if cs[from].Throws? then Throws(cs[from].error)
    else if !cs[from].value then Ok(Some(from))
    else FirstFailing(cs, from + 1)
  }

  /** The first record, from `from` on, that fails its check. */
  function FirstFailure(recs: seq<ArgRecord>, mode: Mode, from: nat): Result<Option<nat>>
    requires from <= |recs|
  {
    FirstFailing(Checks(recs, mode), from)
  }

  /** The failure that is reported. A mismatch carries the number of
      signature entries; a wrong type, the position of the argument. */
  datatype Invalid = Mismatch(signLen: nat) | Unexpected(index: nat)

  /** The argument highlighted in the message; -1 highlights none. */
  function InvalidIndex(inv: Invalid): int
  {
    match inv
    case Mismatch(_) => -1
    case Unexpected(i) => i
  }

  /** The reason part of the message. The mismatch text never says
      "at least": the flag it consults is never set. */
  function InvalidMessage(inv: Invalid, recs: seq<ArgRecord>): string
  {
    match inv
    case Mismatch(signLen) =>
      "Argument number mismatch: Expected " + NatToString(signLen) + " argument(s), " + NatToString(|recs|) + " given"
    case Unexpected(i) =>
      if i < |recs| then "Expected '" + recs[i].expected + "', '" + recs[i].given + "' given" else ""
  }

  /** A number concatenated into a string: integers in decimal, any other
      number as the text it renders as. */
  function NumberText(n: Number): string
  {
    match n
    case Integral(i) => IntToString(i)
    case NonIntegral(text) => text
  }

  /** How one argument value is shown in the message. */
  function ShowValue(v: JsVal): string
  {
    if IsString(v) then "\"" + v.s + "\""
    else if IsNumber(v) then NumberText(v.n)
    else ObjectToString(v)
  }

  /** The argument values the records hold. */
  function ValuesOf(recs: seq<ArgRecord>): (vals: seq<JsVal>)
    ensures |vals| == |recs| && forall i :: 0 <= i < |recs| ==> vals[i] == recs[i].value
  {
    seq(|recs|, i requires 0 <= i < |recs| => recs[i].value)
  }

  function ShowArg(vals: seq<JsVal>, index: int, k: nat): string
    requires k < |vals|
  {
    if k == index then "-->" + ShowValue(vals[k]) + "<--" else ShowValue(vals[k])
  }

  /** The argument list from position `k` on: each value shown, the one at
      `index` between `-->` and `<--`, separated by `, `. */
  function ArgList(vals: seq<JsVal>, index: int, k: nat): string
    requires k <= |vals|
    decreases |vals| - k
  {
    if k == |vals| then ""
    else ShowArg(vals, index, k) + (if k + 1 < |vals| then ", " else "") + ArgList(vals, index, k + 1)
  }

  /** The caller's name. Stack traces are not part of this model, so the
      name is the one used when no trace is available. */
  const InvokedBy := "function"

  function HandlerMessage(inv: Invalid, recs: seq<ArgRecord>): string
  {
    InvokedBy + "(" + ArgList(ValuesOf(recs), InvalidIndex(inv), 0) + "): " + InvalidMessage(inv, recs)
  }

  /** One element of the `arguments` list handed to the callback. */
  datatype ArgReport = ArgReport(valid: bool, index: nat, value: JsVal, expected: string, given: string, error: Option<ErrTag>)

  /** The object handed to the callback. */
  datatype Diagnostic = Diagnostic(arguments: seq<ArgReport>, invokedBy: string, file: string, line: string, column: string)

  function Report(r: ArgRecord): ArgReport
  {
    ArgReport(r.valid, r.index, r.value, r.expected, r.given, r.error)
  }

  function Reports(recs: seq<ArgRecord>): (r: seq<ArgReport>)
    ensures |r| == |recs| && forall i :: 0 <= i < |recs| ==> r[i] == Report(recs[i])
  {
    seq(|recs|, i requires 0 <= i < |recs| => Report(recs[i]))
  }

  /** What a call of `simpli.argv` does: the argument the callback is called
      with (absent when it is not called), and what the call returns or throws. */
  datatype Outcome = Outcome(callback: Option<Diagnostic>, result: Result<bool>)

  /** Specification of `_argv.invalidHandler`: the callback, when given,
      receives the diagnostic; then the call throws the message in
      ERROR mode and returns false in SILENT mode. */
  function Handle(inv: Invalid, recs: seq<ArgRecord>, hasCallback: bool, errorMode: ErrorMode): Outcome
  {
    Outcome(
      if hasCallback then Some(Diagnostic(Reports(recs), InvokedBy, "", "", "")) else None,
      if errorMode == ErrorReporting then Throws(Reported(HandlerMessage(inv, recs))) else Ok(false))
  }

  /** The parameters after the arguments object, without a trailing
      function, and whether there was one (the callback). */
  function SplitCallback(params: seq<Param>): (seq<Param>, bool)
  {
    if |params| > 0 && params[|params| - 1] == PVal(Func) then (params[..|params| - 1], true)
    else (params, false)
  }

  /** An array given as the only signature parameter. */
  function ListItems(p: Param): Option<seq<Param>>
  {
    match p
    case PList(items) => Some(items)
    case PVal(v) =>
      if v.Arr? then Some(seq(|v.elems|, i requires 0 <= i < |v.elems| => PVal(v.elems[i]))) else None
    case PType(_) => None
  }

  /** The signature list: the parameters themselves when there are several,
      or a single string or `simpli.Type`; the items of a single array;
      otherwise a TypeError. */
  function SignatureList(ps: seq<Param>): Result<seq<Param>>
  {
    if |ps| > 1 || (|ps| == 1 && ((ps[0].PVal? && ps[0].v.Str?) || ps[0].PType?)) then Ok(ps)
    else if |ps| == 1 && ListItems(ps[0]).Some? then Ok(ListItems(ps[0]).value)
    else Throws(BadSignatureList)
  }

  /** What the call does once the walk has ended in `fin`: a mismatch is
      reported; otherwise the first record that fails its check is reported
      with `UNEXPECTED_DATATYPE`, and with none the call returns true. */
  function Verdict(mode: Mode, errorMode: ErrorMode, mismatch: bool, recs: seq<ArgRecord>, signLen: nat, hasCallback: bool): Outcome
  {
    if mismatch then Handle(Mismatch(signLen), recs, hasCallback, errorMode)
    else
      var f := FirstFailure(recs, mode, 0);
      if f.Throws? then Outcome(None, Throws(f.error))
      else if f.value.None? then Outcome(None, Ok(true))
      else
        var i := f.value.value;
        Handle(Unexpected(i), recs[i := recs[i].(error := Some(UnexpectedDatatype))], hasCallback, errorMode)
  }

  /** Specification of `simpli.argv(arguments, signatures..., callback)` with
      the argument values `args`, the later parameters `params`, and the two
      modes. */
  function ArgvOutcome(mode: Mode, errorMode: ErrorMode, args: seq<JsVal>, params: seq<Param>): Outcome
  {
    var (ps, hasCallback) := SplitCallback(params);
    var sigs := SignatureList(ps);
    if sigs.Throws? then Outcome(None, Throws(sigs.error))
    else
      var w := Walk(sigs.value, 0, WalkState(StartCounters, InitialRecords(args)));
      if w.Throws? then Outcome(None, Throws(w.error))
      else
        var fin := Finish(w.value);
        Verdict(mode, errorMode, fin.c.mismatch, fin.recs, |sigs.value|, hasCallback)
  }
}
