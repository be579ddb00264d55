/** The two process-wide settings of the argument checker,
    `simpli.argv.mode` and `simpli.argv.errorMode`. */
module Modes {
  import opened Values

  /** STRICT accepts only the basic type names; EXTEND adds the rest. */
  datatype Mode = Strict | Extend
  /** ERROR throws on a failed check; SILENT returns false. */
  datatype ErrorMode = ErrorReporting | Silent

  const StrictText := "{MODE_STRICT}"
  const ExtendText := "{MODE_EXTEND}"
  const ErrorText := "{ERRMODE_ERROR}"
  const SilentText := "{ERRMODE_SILENT}"

  function ModeText(m: Mode): string
  {
    match m
    case Strict => StrictText
    case Extend => ExtendText
  }

  function ErrorModeText(e: ErrorMode): string
  {
    match e
    case ErrorReporting => ErrorText
    case Silent => SilentText
  }

  /** The mode a value names, if any. */
  function ParseMode(v: JsVal): Option<Mode>
  {
    if v == Str(StrictText) then Some(Strict)
    else if v == Str(ExtendText) then Some(Extend)
    else None
  }

  function ParseErrorMode(v: JsVal): Option<ErrorMode>
  {
    if v == Str(ErrorText) then Some(ErrorReporting)
    else if v == Str(SilentText) then Some(Silent)
    else None
  }

  /** The constants name the settings one-to-one. */
  lemma ModeTextRoundTrip(m: Mode, e: ErrorMode, v: JsVal)
    ensures ParseMode(Str(ModeText(m))) == Some(m)
    ensures ParseErrorMode(Str(ErrorModeText(e))) == Some(e)
    ensures ParseMode(v).Some? ==> v == Str(ModeText(ParseMode(v).value))
    ensures ParseErrorMode(v).Some? ==> v == Str(ErrorModeText(ParseErrorMode(v).value))
  {
  }

  /** The settings, as the library keeps them in its private `_argv` object. */
  class ArgvConfig {
    var mode: Mode
    var errorMode: ErrorMode

    /** The library starts in EXTEND mode and reports errors by throwing. */
    constructor ()
      ensures mode == Extend && errorMode == ErrorReporting
    {
      mode := Extend;
      errorMode := ErrorReporting;
    }

    /** `simpli.argv.mode(arg)`: with no argument, return the current mode;
        otherwise set it, or throw when `arg` names no mode. */
    method AccessMode(arg: JsVal) returns (r: Result<string>)
      modifies this
      ensures errorMode == old(errorMode)
      ensures !IsDefined(arg) ==> mode == old(mode) && r == Ok(ModeText(mode))
      ensures IsDefined(arg) && ParseMode(arg).None? ==> mode == old(mode) && r == Throws(UnrecognizedMode)
      ensures ParseMode(arg).Some? ==> mode == ParseMode(arg).value && r == Ok(ModeText(mode))
    {
      if IsDefined(arg) {
        if arg != Str(StrictText) && arg != Str(ExtendText) {
          return Throws(UnrecognizedMode);
        }
        mode := if arg == Str(StrictText) then Strict else Extend;
      }
      return Ok(ModeText(mode));
    }

    /** `simpli.argv.errorMode(arg)`, in the same way. */
    method AccessErrorMode(arg: JsVal) returns (r: Result<string>)
      modifies this
      ensures mode == old(mode)
      ensures !IsDefined(arg) ==> errorMode == old(errorMode) && r == Ok(ErrorModeText(errorMode))
      ensures IsDefined(arg) && ParseErrorMode(arg).None? ==>
        errorMode == old(errorMode) && r == Throws(UnrecognizedErrorMode)
      ensures ParseErrorMode(arg).Some? ==>
        errorMode == ParseErrorMode(arg).value && r == Ok(ErrorModeText(errorMode))
    {
      if IsDefined(arg) {
        if arg != Str(ErrorText) && arg != Str(SilentText) {
          return Throws(UnrecognizedErrorMode);
        }
        errorMode := if arg == Str(ErrorText) then ErrorReporting else Silent;
      }
      return Ok(ErrorModeText(errorMode));
    }
  }
}
