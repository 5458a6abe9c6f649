# args-list-parser, modelled in Dafny

This project models the argument-list parser of `ArgsListParser`. The parser takes a list of command-line tokens and a schema of argument descriptors. It returns an object keyed by each descriptor's canonical name (`names[0]`), and it reports every anomaly as a non-fatal warning. The model covers:

- the parsing pass (`parse`): a left-to-right fold over the tokens, followed by default substitution;
- alias lookup (`getArgDescription_`);
- value coercion (`parseStringValue_`) for `int`, `bool`, `string` and unknown types;
- the help table: labels, rows, column alignment (`alignColumns_`) and line joining.

Files and modules:

- `args.dfy` (`Args`): descriptors, arities, values, result entries, warnings, schema well-formedness and first-match lookup.
- `coercion.dfy` (`Coercion`): `ParseStringValue`, decimal digits, ASCII case folding.
- `parser.dfy` (`Parser`): the fold state and its invariant, `FlagStep`/`ValueStep`/`Step`, `Run`, `FillDefaults`, `Parse`.
- `properties.dfy` (`ParserProperties`): reference definitions that read the result off the token list without the fold, and the lemmas that connect them to `Run` and `Parse`.
- `help.dfy` (`Help`): help-row construction, column alignment, joining, and where each cell lands in a help line.
- `findings.dfy` (`InheritedKeys`): the repeated-flag test as written, which also sees inherited object keys (see Findings).

Modelling choices:

- `values` is the datatype `Arity` = `Zero | Single | Multi`. In the code, 0 is falsy, `=== 1` is single, and any other truthy value behaves as multi.
- Warnings are a returned `seq<Warning>`, one constructor per message kind, carrying the text the message quotes. They are not strings on a console.
- A recorded entry is `Scalar(BoolVal(true))` for a zero-value flag and a non-empty `List` otherwise. Every value is stored in a list, even for single-value args (line 32).
- The result object is a `map<string, Entry>` with own keys only. The code's `args[name] || defaultValues` keeps a recorded entry. Every recorded entry is truthy (`true` or an array), so this reduces to a key-presence test. `Parser.Inv` carries that fact through the fold.
- Every behaviour below is what `src/ArgsListParser.js` does:
  - there is no backslash escape;
  - there is no repeated-group arity;
  - `int` accepts only `/^\d+$/`, so there is no minus sign;
  - a repeated zero-value flag never warns;
  - a valued flag that gets no values creates no entry, so its default applies;
  - an empty token list prints the help and is then parsed like any other, unless the help cannot be rendered (no descriptors, or a `type` outside `int`/`bool`/`string`), in which case `parse` throws (lines 8-9, 52-62).
- Two expectations in `test/test.js` disagree with the code, and the model follows the code:
  - The help labels at lines 59-63 ("multiple values", "single value") are not the code's labels ("multiple strings", "single string").
  - The `threads` descriptor at line 33 sets `defaultValue`, but the code reads `defaultValues`.

## Model

| member | source | states |
|---|---|---|
| Args.FirstMatchFrom | src/ArgsListParser.js:49 | the index found is the first at or after `start` whose names contain the alias; `None` exactly when no later descriptor lists it |
| Args.ArgDescriptionIndex | src/ArgsListParser.js:48-50 | lookup returns the first descriptor in declaration order listing the alias, and none exactly when no descriptor lists it |
| Coercion.ParseStringValue | src/ArgsListParser.js:65-88 | at most one warning, always of a coercion kind. `int`: warns exactly when the token is not a non-empty digit string, and a digit string yields its decimal value. `bool`: true exactly for ASCII-lowercased `true`/`t`/`1`, no warning exactly for the six known words, otherwise false plus a warning. `string`: unchanged, no warning. Unknown type: unchanged, one type warning |
| Coercion.DecimalRoundTrip | src/ArgsListParser.js:67-69 | reading back the decimal spelling of any natural number gives that number |
| Coercion.IntRoundTrip | src/ArgsListParser.js:66-69 | every natural number written in decimal is accepted by an `int` arg without a warning and yields itself |
| Coercion.LeadingZeroIgnored | src/ArgsListParser.js:67-69 | a leading zero does not change an accepted `int` value |
| Coercion.BoolIgnoresCase | src/ArgsListParser.js:72-81 | upper-casing a `bool` token changes neither its value nor whether it warns |
| Parser.FlagStep | src/ArgsListParser.js:17-25 | the flag's descriptor becomes active. Unknown name: entries unchanged, one "unexpected arg name" warning. Zero-value: records `true` under the canonical name, changes no other key, never warns. Valued: entries unchanged, and it warns "appeared multiple times" when the name is already a key and stays silent otherwise |
| Parser.ValueStep | src/ArgsListParser.js:26-36 | the active descriptor is kept. No active descriptor, a zero-value arg, or a second value for a single-value arg: entries unchanged plus the matching warning. Otherwise the coerced value is appended under the canonical name, no other key changes, and only the coercion's warnings are added |
| Parser.Step | src/ArgsListParser.js:16-37 | keeps the invariant (keys are canonical names holding entries of their descriptor's shape: `true`, one value, or one or more values); the warning log only grows, by at most one per token |
| Parser.Run | src/ArgsListParser.js:14-37 | after any token list, every recorded entry has its descriptor's shape: `true`, a one-element list for single-value args, a non-empty list for multi-value args |
| Parser.FillDefaults | src/ArgsListParser.js:42-43 | afterwards every canonical name is a key; recorded entries are kept; an unrecorded name gets its descriptor's `defaultValues` |
| Parser.ParseTokens | src/ArgsListParser.js:14-45 | after the token loop and default substitution the keys are exactly the canonical names, each holding its default or an entry of its descriptor's shape; the warnings returned are those of the token loop, so the warning lemmas about `Run` hold of `Parse` |
| Parser.Parse | src/ArgsListParser.js:7-46 | for an empty token list or a first token `help`, it throws exactly when the schema cannot be rendered as help (no descriptors, or an unknown type). With first token `help` and a renderable schema it returns only the help text. Otherwise it returns the result object (keys exactly the canonical names, each its default or an entry of its descriptor's shape) together with the token loop's warnings, and carries the help text exactly when the token list was empty |
| ParserProperties.ActiveIsLastFlag | src/ArgsListParser.js:17-19 | the fold's active descriptor is the one the last flag token selected (none before any flag or after an unknown one) |
| ParserProperties.StepKeepsOthers | src/ArgsListParser.js:22-33 | a token changes at most the entry of the descriptor it selects or is a value for |
| ParserProperties.ZeroArgRecordsPresence | src/ArgsListParser.js:22-28 | a zero-value arg is a key exactly when one of its flags appears anywhere, and then it holds `true` |
| ParserProperties.SingleArgKeepsFirst | src/ArgsListParser.js:29-33 | a single-value arg is a key exactly when some value falls under it, and then it holds the first such value, coerced, alone |
| ParserProperties.MultiArgCollectsAll | src/ArgsListParser.js:31-33 | a multi-value arg is a key exactly when some value falls under it, and then it holds all such values, coerced, in token order |
| ParserProperties.ParseMatchesReference | src/ArgsListParser.js:14-45 | whenever `parse` returns a result object, every descriptor's final entry equals the reference read off the token list: presence or values when supplied, `defaultValues` otherwise |
| ParserProperties.RepeatedFlagWarnedIffValued | src/ArgsListParser.js:24-25 | a flag of a valued arg never changes the result; it warns "appeared multiple times" exactly when some value already fell under that arg, so a bare earlier occurrence does not make it warn |
| ParserProperties.EmptyInputGivesDefaults | src/ArgsListParser.js:8-45 | an empty token list throws exactly when the schema cannot be rendered as help; otherwise it returns the help text and exactly the declared defaults, with no warnings |
| ParserProperties.WarningsOnlyGrow | src/ArgsListParser.js:16-37 | the warnings after a prefix of the tokens are a prefix of the final warnings, and there are never more warnings than tokens |
| ParserProperties.StepAddsWarning | src/ArgsListParser.js:26-36 | a token adds an orphan, zero-value or excess-value warning exactly in the situation the code tests for, and otherwise leaves that warning's count alone |
| ParserProperties.OrphanValuesWarned | src/ArgsListParser.js:35-36 | each value falling under no descriptor draws exactly one "provided without an arg name" warning |
| ParserProperties.ZeroArgValuesWarned | src/ArgsListParser.js:27-28 | each value falling under a zero-value arg draws exactly one "zero value arg" warning |
| ParserProperties.SingleArgExcessWarned | src/ArgsListParser.js:29-30 | a single-value arg given n > 0 values draws exactly n - 1 "multiple arg values" warnings |
| Help.ValueCountHelp | src/ArgsListParser.js:53-57 | the label is "no values" exactly for zero-value args, "single T" for single-value args and "multiple Ts" for multi-value args, for each known type T |
| Help.PadEnd | src/ArgsListParser.js:93 | the result is the text followed by spaces only, and is as long as the target width or the text, whichever is longer |
| Help.ColumnWidth | src/ArgsListParser.js:91-92 | the width is at least every cell's length in the column and equals some cell's length |
| Help.AlignColumns | src/ArgsListParser.js:90-94 | the number of rows and of cells per row is unchanged. Each cell in the first row's columns becomes as long as its column's widest cell and is the original text followed by spaces only. Cells beyond those columns are unchanged |
| Help.AlignIdempotent | src/ArgsListParser.js:90-94 | aligning an already aligned table changes nothing |
| Help.HelpLines | src/ArgsListParser.js:58-61 | one help line per descriptor, and all lines have the same length |
| Help.JoinPlacesPart | src/ArgsListParser.js:61 | in `parts.join(sep)`, part c starts after the earlier parts and one separator each, and is followed by the separator, or ends the string if it is the last part |
| Help.HelpLineLayout | src/ArgsListParser.js:58-61 | help line i holds descriptor i's cells in order: empty, example, aliases joined by a vertical bar, label, explanation. Each cell starts at its column's offset, which is the same in every line. It is padded with spaces to the column's widest cell and followed by four spaces, except the last cell, which ends the line |
| Help.HelpText | src/ArgsListParser.js:62 | the printed help begins with the line `Arguments:` |
| Help.HelpTextLayout | src/ArgsListParser.js:62 | help line i is line i + 1 of the printed text: it starts after the header and the earlier lines, each ended by a newline, and is followed by a newline, or ends the text if it is the last line |
| InheritedKeys.FlagStepAsWritten | src/ArgsListParser.js:24-25 | the repeated-flag test as written: a valued flag warns exactly when its name is a key or an inherited object property |
| InheritedKeys.InheritedNameWarnsOnFirstUse | src/ArgsListParser.js:24-25 | for a single-value arg named `toString`, its first and only flag warns "appeared multiple times" as written, and does not in `Parser.FlagStep` |
| InheritedKeys.FirstFlagNeverRepeated | src/ArgsListParser.js:24-25 | with own keys only, the first flag of a parse never draws "appeared multiple times" |

## Left out

- Reading `process.argv` as the default input (line 7): the token list is a parameter.
- Console output (lines 21-36, 62, 68, 79, 85): warnings are a returned sequence, and the help text `printHelp_` prints is returned in the parse result instead (`HelpOnly`, or the `help` field of `ParseOutput`).
- The `printArgs_` debug dump (lines 39-40) and `bashColorConsole` (lines 96-123): both are console decoration.
- Coercion.ParseStringValue: for an `int` token that is not all digits, the result is `LooseInt(token)` standing for `parseInt`'s answer, which is left unspecified (signs, whitespace, trailing text, `NaN`).
- Coercion.ParseStringValue: a digit string yields its exact value, while the code's `parseInt` loses precision above 2^53.
- Coercion.ParseStringValue: case folding is ASCII only; the code's `toLowerCase` also folds non-ASCII letters.
- Args.WellFormed: the parser is modelled only for schemas where every descriptor has a name and canonical names are distinct. In the code, descriptors that share a canonical name share one result key. A later multi-value descriptor appends its values to the shared list. A later single-value descriptor drops its values with a "multiple arg values" warning once the key holds a value. A later valued flag warns "appeared multiple times" only when the key is already present, that is, after a value or a zero-value flag was recorded under it. A zero-value descriptor overwrites the list with `true`, and a later value for a multi-value descriptor then pushes onto `true` and throws. A descriptor with no names reports under the key `undefined`.
- Entry: `defaultValues` is limited to `undefined`, a scalar value or a list of values, not an arbitrary object.
- Line 43 stores the descriptor's own `defaultValues` object in the result, so mutating a defaulted entry alters the schema seen by later parses; the model's values are immutable. The result object's key insertion order is also not modelled: `map<string, Entry>` has no order.
- Help.HelpLines: needs a schema that `Help.Renderable` accepts (non-empty, every `type` one of `int`, `bool`, `string`). For any other schema `printHelp_` throws, and `Parser.Parse` models this as the `HelpThrows` outcome.
- Parser.Parse: `Zero`, `Single` and `Multi` stand for `values` 0, 1 and 2. Other values are not modelled: (1) other falsy values (omitted, `null`, `false`) parse like 0, but their help label `valueCountHelps[type][values]` is `undefined`, so `alignColumns_` throws on `text.length` for empty or `help` input; (2) other truthy values parse like 2. Among them, numbers such as 3 have an `undefined` label and make help throw. The strings `'0'`, `'1'` and `'2'` get a defined label, and `'1'` and `'0'` get one that disagrees with how they parse.
- Descriptor: `example` and `explanation` are always strings. An omitted one makes `alignColumns_` throw on `text.length`, which the model does not represent.
- Help.AlignColumns: rows shorter than the first row make the code throw. The model requires every row to be at least as long as the first.
- String lengths are counted in characters, while the code counts UTF-16 code units; the two differ only for characters outside the Basic Multilingual Plane.
- The result object's inherited keys at lines 29, 32 and 43 (`args[name]` for names like `constructor`): the model's result map has own keys only. See Findings for line 24.
- A zero-value arg named `__proto__` (line 23): `args['__proto__'] = true` goes to the prototype setter and records no key, while the model records `"__proto__"` as `true`.

## Findings

| source | as written | input that shows it | evidently intended | confidence | as-written member | corrected member |
|---|---|---|---|---|---|---|
| src/ArgsListParser.js:24 | `argName in args` on a plain object is also true for names every object inherits, such as `toString` | schema `[{names: ['toString'], values: 1}]`, tokens `['-toString']`: warns "appeared multiple times" on the only occurrence | warn only when the name was already recorded in this parse | medium, not executed | InheritedKeys.FlagStepAsWritten (shown by InheritedKeys.InheritedNameWarnsOnFirstUse) | Parser.FlagStep (with InheritedKeys.FirstFlagNeverRepeated) |

