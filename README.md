# simpli.js argument checking, modelled in Dafny

simpli.js is a small JavaScript utility library. Its centre is `simpli.argv`: a
function calls it with its own `arguments` object and a list of signatures such as
`"number"`, `"[string]"`, `"...int"`, `"number|string[]"` or a `simpli.Type`
object. `simpli.argv` then decides whether the arguments match.

It works in three stages:

- It reads the signature list. An entry wrapped in `[]` is optional. A leading `...`
  makes an entry repeatable. `|` separates the alternatives. Each alternative must
  be a name of the type grammar.
- It binds every argument to an entry, in an array of argument records. On the
  way it enforces the declaration rules:
  - no required entry after an optional one;
  - at most one repeatable entry, and only as the last one.
- It reports an argument-number mismatch, or the first argument whose type fails.

A failure goes to `_argv.invalidHandler`. The handler builds a message and passes a
diagnostic object to the callback, if the last parameter was a function. It then
throws a `TypeError` in ERROR mode, or returns `false` in SILENT mode.

The model also covers the parts this checker is built from:

- the scalar type predicates (`isNull`, `isNumber`, `isChar`, …);
- the sized array predicates (`is*Array(arg, size)`);
- `detailTypeOf`;
- the custom type `simpli.Type` with its copy-on-write modifiers;
- the two mode settings;
- `String.prototype.nthIndexOf`.

Modules, one per file:

| file | module | what it holds |
|---|---|---|
| `text.dfy` | `Text` | lower-casing, decimal text, `split`/`join` on a separator, replacing the first occurrence of a character |
| `values.dfy` | `Values` | JavaScript values (`Undef`, `Null`, `Bool`, `Num`, `Str`, `Arr`, `Obj`, `Func`), `typeof`, `getClass`, the scalar predicates, the `TypeError`s the library throws |
| `detail_type.dfy` | `DetailType` | `detailTypeOf`: its specification and its loop |
| `array_predicates.dfy` | `ArrayPredicates` | the `is*Array(arg, size)` predicates: one loop shared by all of them |
| `nth_index_of.dfy` | `NthIndex` | `nthIndexOf`: the occurrences of a substring, and the search loop proved against them |
| `custom_type.dfy` | `CustomType` | `simpli.Type` as a class whose modifiers return fresh clones, and the value snapshot the checker reads |
| `modes.dfy` | `Modes` | `MODE_*`/`ERRMODE_*`, and the getter/setters `argv.mode` and `argv.errorMode` as a class |
| `type_grammar.dfy` | `TypeGrammar` | `_argv.typeRegEx` as a token grammar, and `_argv.isType` |
| `check_arg.dfy` | `ArgCheck` | the argument record and `_argv.checkArg` |
| `signature.dfy` | `Signature` | reading one signature entry: the optional wrapper, the `...` prefix and the bar-separated alternatives |
| `argv_spec.dfy` | `ArgvSpec` | the specification of the whole of `simpli.argv` and of `invalidHandler`, step by step |
| `argv.dfy` | `Argv` | `simpli.argv` as it runs: an array of records updated in place by the walk, each method proved equal to its specification |
| `argv_walk.dfy` | `ArgvWalk` | what the walk computes, stated without the walk |
| `argv_properties.dfy` | `ArgvProperties` | the outcome of `simpli.argv` in terms of the declaration and the arguments |
| `argv_examples.dfy` | `ArgvExamples` | concrete calls and what they return, throw or report |

Behaviour of the code that the model keeps, even where a reader might expect
otherwise:

- **`detailTypeOf([])` is `"array[0]"`.** The element class of an empty array is
  taken to be `Array`. A description of the library might lead one to expect
  `"mixed[0]"`; the model follows the code.
- **STRICT mode is lazy.** It rejects an extended type name only at check time.
  It does so only for the alternatives that are still evaluated, that is, before
  one of them has matched. Once an alternative matches, the later ones are only
  checked against the grammar.
- **The mismatch message never says "at least".** The flag it consults is never
  set. The number it gives is the length of the signature list, even when a
  repeatable entry could take more arguments.
- **`expected` replaces only the first `|` with `,`.**
- **Built-in sized arrays (`number[3]`) need exactly that length.**
  `simpli.Type.array(n)` is instead an upper bound. `mixed[n]` ignores `n`.
  `char[n]` matches a string of length `n`, and plain `char[]` matches nothing.
- **`optional()`, `repeatable()` and `array()` reset the name.** They act on a
  clone, and the clone's name is `{simpli.Type}`. `array()` then appends `[n]` or
  `[]` to the receiver's name. An `array()` with no size keeps whatever size bound
  the receiver had.
- **The `valid` field of an argument record is never set to `true`.**
- **A lone `...`** strips to an empty body. It is not counted as repeatable, and the
  empty alternative then fails the grammar.

## Model

All source paths are in `simplijs/1.2.3/unitTest/js/simpli.js`.

| member | source | states |
|---|---|---|
| Argv.Argv | simplijs/1.2.3/unitTest/js/simpli.js:1523-1776 | Given the current modes, what a call returns, throws and hands to the callback is exactly the specification `ArgvOutcome`; its properties are the `ArgvProperties` lemmas |
| Argv.Conclude | simplijs/1.2.3/unitTest/js/simpli.js:1727-1775 | After the walk: a mismatch goes to the handler; otherwise the first record whose check fails is marked `UNEXPECTED_DATATYPE` and goes to the handler, a throwing check propagates its error, and with no failure the call returns true, as `Verdict` specifies. The array afterwards differs from before only in that record's error field, and is unchanged on every other path |
| Argv.WalkSignatures | simplijs/1.2.3/unitTest/js/simpli.js:1610-1724 | The signature loop either throws the declaration error of the specified walk, or ends with the walk's counters and leaves the record array equal to the walk's records |
| Argv.WalkStep | simplijs/1.2.3/unitTest/js/simpli.js:1663-1723 | One turn of the loop binds the entry to the current argument, throws on a required-after-optional, a repeatable-not-last or a second repeatable entry, and marks a mismatch when a required entry has no argument, as `Step` specifies |
| Argv.BindRest | simplijs/1.2.3/unitTest/js/simpli.js:1709-1713 | A repeatable entry is bound to every record from the position after the current one, the others are untouched, and the argument position ends past the last argument |
| Argv.MarkMismatch | simplijs/1.2.3/unitTest/js/simpli.js:957-960 | Every record becomes invalid with error `MISMATCH_ARGNUMBER`; nothing else in any record changes |
| Argv.FindInvalid | simplijs/1.2.3/unitTest/js/simpli.js:1736-1746 | The check loop returns the first record whose check fails, none if all pass, or the error of the first check that throws |
| Argv.ArgMessage | simplijs/1.2.3/unitTest/js/simpli.js:1024-1043 | The argument list of the message: each value shown (strings quoted), the one at the failing index between `-->` and `<--`, separated by `, ` |
| Argv.CallbackArguments | simplijs/1.2.3/unitTest/js/simpli.js:1078-1099 | The callback receives one report per record, carrying that record's validity, index, value, expected and given types and error |
| Argv.InvalidHandler | simplijs/1.2.3/unitTest/js/simpli.js:1007-1111 | The callback, when there is one, gets the diagnostic; the call then throws `function(<args>): <reason>` in ERROR mode and returns false in SILENT mode |
| ArgvWalk.WalkTheorem | simplijs/1.2.3/unitTest/js/simpli.js:1610-1734 | The walk succeeds iff every entry reads, no required entry follows an optional one and a repeatable entry can only be last. Then a mismatch happens iff a required entry has no argument or arguments are left with no repeatable entry. Argument r is bound to entry r, or to the repeatable last entry past the end |
| ArgvWalk.WalkFromPrefix | simplijs/1.2.3/unitTest/js/simpli.js:1610-1724 | From any well-declared prefix without a repeatable entry, the rest of the walk succeeds exactly when the whole list is well declared, and ends in the state determined by the entries alone |
| ArgvWalk.StepPlain | simplijs/1.2.3/unitTest/js/simpli.js:1663-1688 | A non-repeatable entry extends the state of a prefix to the state of the longer prefix: one more record bound, and the mismatch flag set iff a required entry found no argument |
| ArgvWalk.StepRepeatable | simplijs/1.2.3/unitTest/js/simpli.js:1690-1713 | A repeatable last entry is bound to its argument and to every later one, and the walk ends past the last argument |
| ArgvWalk.StepAfterRepeatable | simplijs/1.2.3/unitTest/js/simpli.js:1691-1720 | Any entry read after a repeatable entry that was not last throws |
| ArgvProperties.ArgvAccepts | simplijs/1.2.3/unitTest/js/simpli.js:1523-1776 | A call returns true iff the declaration reads and is well formed, the number of arguments fits it, and every argument passes the check of its entry; the callback is then not called |
| ArgvProperties.DeclarationErrorThrows | simplijs/1.2.3/unitTest/js/simpli.js:1553-1661 | A signature list that cannot be read or breaks a declaration rule throws its own TypeError (never the reported message) and never calls the callback |
| ArgvProperties.ArityMismatchReported | simplijs/1.2.3/unitTest/js/simpli.js:939-962 | When the argument count does not fit, every report is invalid with `MISMATCH_ARGNUMBER` and the argument's own value, no argument is highlighted, and the message is `Argument number mismatch: Expected <entries> argument(s), <args> given` (thrown in ERROR mode, false in SILENT mode) |
| ArgvProperties.UnexpectedDatatypeReported | simplijs/1.2.3/unitTest/js/simpli.js:976-991 | When the count fits, the message highlights the first rejected argument and reads `Expected '<expected>', '<detailTypeOf>' given`. The callback, called exactly when one was given, gets one report per argument. Each report has its index, value, `valid` false, its entry's expected text and its detailed type. Only the rejected argument's report carries an error, `UNEXPECTED_DATATYPE` |
| ArgvProperties.ReportingFollowsErrorMode | simplijs/1.2.3/unitTest/js/simpli.js:1102-1110 | The callback is called iff it was given and the call fails with a reported message or false; false comes only in SILENT mode, the reported TypeError only in ERROR mode |
| ArgvProperties.ScanFindsRejected | simplijs/1.2.3/unitTest/js/simpli.js:1736-1746 | Over the bound records, the scan stops at the first argument its entry rejects, with every earlier argument accepted |
| ArgvProperties.FirstFailureNone | simplijs/1.2.3/unitTest/js/simpli.js:1736-1746 | The scan finds nothing iff every record from the start position passes its check |
| ArgvProperties.FirstFailureSome | simplijs/1.2.3/unitTest/js/simpli.js:1736-1746 | A found record fails its check and every record before it passes |
| ArgvProperties.FirstFailureThrows | simplijs/1.2.3/unitTest/js/simpli.js:1736-1746 | A scan that throws passes on the error of some record's check |
| ArgvProperties.FirstFailureAt | simplijs/1.2.3/unitTest/js/simpli.js:1736-1746 | A record that fails, with every record before it passing, is the one the scan stops at |
| ArgvProperties.OutcomeOfDeclaration | simplijs/1.2.3/unitTest/js/simpli.js:1577-1775 | Once the declaration reads, the outcome depends only on its entries, the arguments, the modes and whether there is a callback |
| ArgvProperties.WalkErrorNotReported | simplijs/1.2.3/unitTest/js/simpli.js:1610-1724 | An error thrown by the walk is a declaration error, never the handler's reported message |
| ArgvProperties.CheckAltsNotReported | simplijs/1.2.3/unitTest/js/simpli.js:1225-1285 | An error thrown while checking alternatives is a grammar or mode error, never the handler's reported message |
| ArgCheck.CheckArg | simplijs/1.2.3/unitTest/js/simpli.js:1213-1288 | The check of one record is its specification `CheckArgSpec`: an optional absent value passes, then the alternatives are tried in order |
| ArgCheck.CheckAltsIsOr | simplijs/1.2.3/unitTest/js/simpli.js:1221-1285 | When the check does not throw, it accepts iff the value is optional and absent or some alternative accepts it |
| ArgCheck.CheckAltsExtendDecides | simplijs/1.2.3/unitTest/js/simpli.js:1225-1285 | In EXTEND mode, over alternatives that all read, the check never throws |
| ArgCheck.CheckAltsStrictThrows | simplijs/1.2.3/unitTest/js/simpli.js:1239-1285 | In STRICT mode the check throws iff an extended type name is reached while no earlier alternative has matched |
| ArgCheck.StrictModeIsLazy | simplijs/1.2.3/unitTest/js/simpli.js:1239-1243 | In STRICT mode `1` passes the alternatives number-then-integer; `"a"` against them throws; `1` against integer-then-number throws |
| ArgCheck.AnyAcceptsCons | simplijs/1.2.3/unitTest/js/simpli.js:1225-1285 | Some alternative accepts iff the first one does or one of the rest does |
| TypeGrammar.ParseTypeTokenSound | simplijs/1.2.3/unitTest/js/simpli.js:1201-1203 | A string that matches the type grammar is the spelling of the well-formed token it reads as |
| TypeGrammar.ParseTypeTokenComplete | simplijs/1.2.3/unitTest/js/simpli.js:1201-1203 | Every well-formed token's spelling matches the grammar and reads back as that token |
| TypeGrammar.BracketAfterBase | simplijs/1.2.3/unitTest/js/simpli.js:1201-1203 | A base name followed by `[` is not a plain name, and its first `[` comes right after the base name, which is how the element type is read off |
| TypeGrammar.ParseOpen | simplijs/1.2.3/unitTest/js/simpli.js:1201-1203 | `name[]` reads as an array of `name` with no size |
| TypeGrammar.ParseSized | simplijs/1.2.3/unitTest/js/simpli.js:1266-1275 | `name[n]` reads as an array of `name` with size n |
| TypeGrammar.IsTypeThrows | simplijs/1.2.3/unitTest/js/simpli.js:1126-1199 | `isType` throws iff the mode is STRICT and the name is not one of the basic JavaScript types |
| TypeGrammar.BasicTypeNames | simplijs/1.2.3/unitTest/js/simpli.js:1131-1149 | The outer `switch` decides exactly the nine basic names (`*`, `array`, `null`, `object`, `number`, `boolean`, `bool`, `function`, `string`) |
| TypeGrammar.ExtendedTypeDecides | simplijs/1.2.3/unitTest/js/simpli.js:1151-1192 | In EXTEND mode, with a size that is absent or a whole number as the grammar gives it, the inner `switch` never throws |
| TypeGrammar.SizedArrayIsExactLength | simplijs/1.2.3/unitTest/js/simpli.js:1266-1275 | `number[n]` accepts exactly the arrays of n numbers |
| TypeGrammar.MixedAndCharArrays | simplijs/1.2.3/unitTest/js/simpli.js:1165-1192 | `mixed[n]` accepts every array whatever its length; `char[n]` accepts strings whose `length`, in UTF-16 code units, is n; `char[]` accepts nothing |
| TypeGrammar.AstralCharacters | simplijs/1.2.3/unitTest/js/simpli.js:1185-1192 | A character outside the Basic Multilingual Plane is not a `char`, but it is a `char[2]`; a string of n such characters is a `char[2n]` |
| Text.NatToStringOfDigitsValue | simplijs/1.2.3/unitTest/js/simpli.js:1271-1274 | A size written with no leading zero is read back by `parseInt` as the number that prints as the same text |
| Text.DigitsValueOfNatToString | simplijs/1.2.3/unitTest/js/simpli.js:1271-1274 | Reading the decimal text of n gives back n |
| Text.Split | simplijs/1.2.3/unitTest/js/simpli.js:1647 | Splitting on the bar character gives at least one part, no part contains a bar, and joining the parts with bars gives back the string |
| Text.SplitJoin | simplijs/1.2.3/unitTest/js/simpli.js:1647 | Splitting the join of parts that contain no separator gives back the parts |
| Text.ReplaceFirst | simplijs/1.2.3/unitTest/js/simpli.js:1644 | Only the first occurrence of the character is replaced; a string without it is unchanged; the length is kept |
| Signature.ParseEntry | simplijs/1.2.3/unitTest/js/simpli.js:1616-1661 | Reading one entry is its specification `ParseSignature`: a `simpli.Type` brings its flags and name; a string loses `[]` then `...`, and throws on the first part outside the grammar; anything else throws |
| Signature.ParseSignatureSound | simplijs/1.2.3/unitTest/js/simpli.js:1626-1654 | A string entry that reads is the rendering of its flags and of its alternatives joined by bars, and every alternative is a grammar token |
| Signature.ParseSignatureComplete | simplijs/1.2.3/unitTest/js/simpli.js:1626-1654 | Rendering any flags and non-empty list of well-formed tokens gives a string that reads back as exactly those flags and alternatives |
| Signature.ParseBodySound | simplijs/1.2.3/unitTest/js/simpli.js:1644-1654 | A body that reads has only well-formed alternatives, which joined by bars give the body back |
| Signature.ParseBodyComplete | simplijs/1.2.3/unitTest/js/simpli.js:1644-1654 | A body made of well-formed tokens joined by bars reads as those tokens |
| Signature.UnwrapRender | simplijs/1.2.3/unitTest/js/simpli.js:1629-1634 | Stripping the optional wrapper loses nothing: putting `[]` back gives the original string |
| Signature.UndotRender | simplijs/1.2.3/unitTest/js/simpli.js:1637-1641 | Stripping `...` loses nothing: putting it back gives the original string |
| Signature.FirstInvalid | simplijs/1.2.3/unitTest/js/simpli.js:1649-1653 | No part is reported iff every part matches the grammar; a reported part is one of the parts and does not match |
| CustomType.TypeObject.constructor | simplijs/1.2.3/unitTest/js/simpli.js:1302-1329 | A new type has the given name and callback and every flag cleared |
| CustomType.TypeObject.Create | simplijs/1.2.3/unitTest/js/simpli.js:1302-1329 | `new simpli.Type(name, callback)` or `(callback)` builds a type, with the default name in the second case; any other arguments throw their TypeError |
| CustomType.TypeObject.Clone | simplijs/1.2.3/unitTest/js/simpli.js:1337-1345 | A fresh object with the same callback and flags and the default name |
| CustomType.TypeObject.Optional | simplijs/1.2.3/unitTest/js/simpli.js:1445-1451 | A fresh clone with the optional flag set; the receiver is left as it was |
| CustomType.TypeObject.Repeatable | simplijs/1.2.3/unitTest/js/simpli.js:1489-1494 | A fresh clone with the repeatable flag set; the receiver is left as it was |
| CustomType.TypeObject.Array | simplijs/1.2.3/unitTest/js/simpli.js:1460-1482 | Throws on a size that is not an integer or is not positive; otherwise a fresh clone that is an array type with that size, named after the receiver with `[size]` or `[]` |
| CustomType.TypeObject.Is | simplijs/1.2.3/unitTest/js/simpli.js:1504-1506 | `is(v)` is the matching rule `Matches` of the type's current fields |
| CustomType.OptionalModifier | simplijs/1.2.3/unitTest/js/simpli.js:1354-1381 | An optional type accepts an absent value and otherwise judges a value as the original type does |
| CustomType.RepeatableModifier | simplijs/1.2.3/unitTest/js/simpli.js:1354-1381 | Making a type repeatable does not change which values it accepts |
| CustomType.ArrayModifier | simplijs/1.2.3/unitTest/js/simpli.js:1354-1381 | `array(k)` with k ≤ 0 or a non-integer throws; with k > 0 it is named `<name>[k]` and accepts exactly the arrays of at most k elements that all pass the callback; `array()` is named `<name>[]` and keeps the receiver's bound |
| CustomType.ModifierChainLeavesReceiver | simplijs/1.2.3/unitTest/js/simpli.js:1445-1494 | For any receiver `t` and size `k`, `t.optional().array(k)` leaves `t` unchanged; it throws the not-positive size error when `k <= 0`, and otherwise returns a new object with the receiver's callback and repeatable flag, `optional` and `isArray` set, size `k` and the name `{simpli.Type}[k]` |
| Modes.ArgvConfig.constructor | simplijs/1.2.3/unitTest/js/simpli.js:1833-1834 | The modes start as EXTEND and ERROR |
| Modes.ArgvConfig.AccessMode | simplijs/1.2.3/unitTest/js/simpli.js:1801-1811 | With no argument it returns the current mode unchanged; a recognised mode is set and returned; anything else throws and changes nothing; the error mode is never touched |
| Modes.ArgvConfig.AccessErrorMode | simplijs/1.2.3/unitTest/js/simpli.js:1821-1831 | The same for the error mode, leaving the mode untouched |
| Modes.ModeTextRoundTrip | simplijs/1.2.3/unitTest/js/simpli.js:1786-1792 | Each mode's text is recognised as that mode, and only a mode's own text is recognised |
| DetailType.DetailTypeOf | simplijs/1.2.3/unitTest/js/simpli.js:325-346 | The loop computes `DetailType`: a non-array gives its lower-cased class name, an array gives its common element class and its length (`array[0]` when empty), or `mixed[length]` when the classes differ |
| DetailType.ElementClassStep | simplijs/1.2.3/unitTest/js/simpli.js:331-340 | Each step of the loop keeps the common class while elements agree and turns it into `mixed` at the first disagreement |
| DetailType.DetailTypeExamples | simplijs/1.2.3/unitTest/js/simpli.js:325-346 | `[]` gives `array[0]`, `[1,2,3]` gives `number[3]`, `[1,"a"]` gives `mixed[2]` |
| ArrayPredicates.IsArrayOf | simplijs/1.2.3/unitTest/js/simpli.js:698-720 | The shared loop of the `is*Array` predicates computes `ArrayOf` |
| ArrayPredicates.ArrayOfSize | simplijs/1.2.3/unitTest/js/simpli.js:698-890 | It throws iff the argument is an array and the size is given but not an integer; true means an array whose every element passes, of exactly the given length when a size is given |
| ArrayPredicates.EmptyArrayOf | simplijs/1.2.3/unitTest/js/simpli.js:698-890 | The empty array passes with no size, and with size k iff k = 0 |
| Values.JsLengthBmp | simplijs/1.2.3/unitTest/js/simpli.js:683-684 | A string's `length` equals its number of characters exactly when every character is in the Basic Multilingual Plane |
| Values.IsCharOneUnit | simplijs/1.2.3/unitTest/js/simpli.js:683-684 | `isChar` holds of exactly the one-character strings whose character is in the Basic Multilingual Plane, since `length` counts UTF-16 code units |
| Values.Utf16Bmp | simplijs/1.2.3/unitTest/js/simpli.js:40-80 | A string in the Basic Multilingual Plane is held as one code unit per character, so its positions are its character positions |
| Values.KindTable | simplijs/1.2.3/unitTest/js/simpli.js:427-685 | Each scalar predicate agrees with the class name `getClass` gives; `isSet` excludes exactly `undefined` and `null`; every integer and char is a number or string |
| NthIndex.NthIndexOf | simplijs/1.2.3/unitTest/js/simpli.js:40-80 | The search loop over the string's UTF-16 code units computes `NthIndexOfSpec`: n = 0 throws; n > 0 gives the nth occurrence (overlapping ones count) at or after the start; n < 0 counts from the last; -1 when there are too few |
| NthIndex.OccurrencesMembers | simplijs/1.2.3/unitTest/js/simpli.js:40-80 | The occurrences are exactly the positions at or after the start where the substring matches |
| NthIndex.OccurrencesIncreasing | simplijs/1.2.3/unitTest/js/simpli.js:40-80 | The occurrences are listed in strictly increasing order, so the nth one is the nth match |
| NthIndex.IndexFromIsFirst | simplijs/1.2.3/unitTest/js/simpli.js:55-71 | `indexOf` from a position finds the first occurrence there, or -1 when there is none |
| NthIndex.SearchForward | simplijs/1.2.3/unitTest/js/simpli.js:55-71 | When the loop stops at the nth search (n > 0) it returns the nth occurrence after the start, or -1 when the nth search fails; otherwise it has recorded every occurrence, and for n > 0 there are fewer than n of them |
| NthIndex.OverlappingExamples | simplijs/1.2.3/unitTest/js/simpli.js:40-80 | `"aaa".nthIndexOf("aa", 2)` is 1 because overlapping matches count; a third occurrence is -1; 0 throws |
| NthIndex.FromEndExamples | simplijs/1.2.3/unitTest/js/simpli.js:40-80 | `"abca".nthIndexOf("a", -1)` is the last match, 3; from start 1 the first match is 3 |
| NthIndex.SurrogatePairExamples | simplijs/1.2.3/unitTest/js/simpli.js:40-80 | After U+1F600, which takes two code units, `a` is found at position 2, from the start and from start 2 |
| ArgvExamples.OneStringAccepted | simplijs/1.2.3/unitTest/js/simpli.js:1523-1776 | `argv(["x"], "string")` returns true without calling back |
| ArgvExamples.OneNumberRejected | simplijs/1.2.3/unitTest/js/simpli.js:1523-1776 | `argv([1], "string")` throws `function(-->1<--): Expected 'string', 'number' given` |
| ArgvExamples.MissingArgumentReported | simplijs/1.2.3/unitTest/js/simpli.js:939-962 | `argv([], "string")` throws the mismatch message with 1 expected and 0 given |
| ArgvExamples.OptionalMayBeAbsent | simplijs/1.2.3/unitTest/js/simpli.js:1213-1223 | `number, [string]` accepts `[1]` and `[1, undefined]` |
| ArgvExamples.OptionalOfWrongType | simplijs/1.2.3/unitTest/js/simpli.js:1736-1746 | `number, [string]` with `[1, 2]` returns false in SILENT mode |
| ArgvExamples.RepeatableTakesAll | simplijs/1.2.3/unitTest/js/simpli.js:1709-1713 | `...number` accepts any non-empty list of numbers |
| ArgvExamples.RepeatableNeedsOne | simplijs/1.2.3/unitTest/js/simpli.js:1683-1687 | `...number` with no argument is a mismatch (false in SILENT mode) |
| ArgvExamples.RepeatableReportsIntruder | simplijs/1.2.3/unitTest/js/simpli.js:1736-1746 | With `...number` and a callback, the first string among numbers is reported to the callback with `UNEXPECTED_DATATYPE` and expected `number` |
| ArgvExamples.TwoRepeatablesRefused | simplijs/1.2.3/unitTest/js/simpli.js:1715-1720 | `...number, ...string` throws the only-one-repeatable TypeError and never calls back |

## Left out

- Stack traces: `getStackTrace`, `getInfoFromStack`, `getFNameFromFString`, and the caller and file/line lookup in `invalidHandler` and `argv`. They depend on engine-specific stack text and on `arguments.callee`. The caller is always named `function`, and the diagnostic's file, line and column are empty.
- The callback is not run. The model gives the diagnostic object it would receive; what the callback does is outside the library.
- Console wrappers, the `Object.create` polyfill, `forEachProperty`, and `isDeepDefined`: host I/O and host objects.
- Host detection: the old-browser fallbacks of `isArguments`/`isArray`, `Global` in `getClass`, and `instanceof` in `isA`. The arguments object is given as a sequence of values. A `simpli.Type` is a separate kind of parameter.
- Floating point: a number is abstract, either integral (with its value) or not (with the text it prints as). `isInteger`'s `% 1` test is that flag.
- Values.IsDecimal: it does not model the digit-count checks on the whole and decimal parts, because they depend on the floating-point number-to-string conversion. It accepts every number, as the check does when no digit counts are given.
- Very large integers print in exponent form in JavaScript. The model prints every integer in plain decimal.
- `parseInt` on a size of the grammar is exact. The model does not model precision loss for sizes beyond 2^53.
- Lower-casing (`toLowerCase`) covers ASCII letters only. This is enough for the class names `getClass` returns.
- An object's class name is always `Object`. Host classes such as `Date` or `RegExp` are not modelled.
- The optional flag of an argument record holds, in the code, the stripped signature string when truthy. The model keeps only its truth value, which is all the code reads.
- NthIndex.NthIndexOf: `nthIndex` and `start` are integers. The source accepts any number. A non-integral `nthIndex` never equals a count, so a positive one gives -1, and a negative one can index the position list at a non-integer and return `undefined`. A non-integral `start` is truncated by `indexOf`. The model's numbers keep only the printed text of a non-integral value, so these paths are not modelled.
- Strings are sequences of Unicode characters. A JavaScript string may also hold a lone surrogate code unit, which the model cannot represent. Lengths in `isChar` and `char[n]`, and positions in `nthIndexOf`, count UTF-16 code units, through the encoding `Values.Utf16`.
- The TypeError texts for declaration and grammar errors are modelled as distinct error tags, not as their text. Only the reported failure message of `invalidHandler` is modelled character by character.
