# de1-to-gaggiuino, modelled in Dafny

de1-to-gaggiuino is a browser page. It converts a Decent Espresso (DE1) shot
profile, a Tcl-flavoured text file, into a Gaggiuino profile in JSON. The page
does these steps:

1. It finds the first `advanced_shot` line and cuts out its steps text.
2. It splits that text into step strings on `} {`.
3. It parses each step string into a record of keys and values. Keys and values
   are separated by spaces, and braces group a value.
4. It finds the first `profile_title` line and takes the title from it. One layer
   of braces around the title is removed.
5. It maps every step record to a Gaggiuino phase and wraps the phases in a
   profile with fixed global settings.
6. It offers the profile for download. The file name is the title with every
   character outside `[a-zA-Z0-9._-]` replaced by a space, then trimmed.

The model is split into modules that follow `script.js`:

- `Strings`: the JavaScript string built-ins the page uses. These are `slice`
  with negative and clamped indices, `indexOf`, `split` on a string separator,
  `trim` over the JavaScript white-space set, `startsWith` and `endsWith`.
- `JsValue`: the values a record holds, which are numbers (finite or NaN),
  strings and `undefined`. It also covers property lookup and store on a plain
  object, the `isNaN`/`parseFloat` test, `*` on values and truthiness.
- `TokenParser`: `parseStringToObject`. The method is the source's loop over
  the space-separated tokens. It is proved equal to `Parse`, a fold of the
  single-token transition `Step`, and the lemmas about the parser are stated
  on `Parse`.
- `SectionExtractor`: `extractAdvancedShot`, `extractTitle` and `getTitle`. The
  regular expressions `/advanced_shot.*$/m` and `/profile_title.*$/m` become
  `MatchLine`. It returns the text from the first occurrence of the marker up
  to the next line terminator.
- `SchemaMapper`: `convertToGaggiuinoSchema`, one phase per step record.
- `NameSanitizer`: `sanitizeFileName`.
- `Pipeline`: `processFile` up to the profile it would download. It returns a
  `Result`, whose error says which check stopped the run.

In a few places the code does less than a reader of the page would expect.
The model follows the code:

- A braced value is stored as a string, even when it looks like a number.
  `pressure {9}` gives the string `"9"`, not the number 9
  (`TokenParser.BracedValueStaysString`).
- A marker is found anywhere in a line, not only at the start of one. The line
  taken is the text from the marker up to the line's end.
- There are no errors for a malformed step or a missing required field. A
  missing key reads as `undefined`, and that value is copied into the phase.
- An empty title ends the run without a message (`Pipeline.Message`).

## Model

| member | source | states |
|---|---|---|
| TokenParser.ParseStringToObject | script.js:111-148 | The loop over the tokens builds the same record as `Parse`, which processes the tokens one by one, in order, through the five branches of the loop body. |
| TokenParser.BracedText | script.js:121-126 | The value of a token holding both braces is the text strictly between the first `{` and the first `}`, or "" when the `}` comes first. |
| TokenParser.RunAppend | script.js:120-146 | Parsing two runs of tokens one after the other is the same as parsing them joined. |
| TokenParser.ParseKeys | script.js:112-146 | Every key of a parsed record is "" or one of its tokens. `__proto__` is never an own key. No stored value is `undefined`. |
| TokenParser.KeyPlainValue | script.js:138-143 | From an idle state, a key token and then a plain value token store the value. The value is a number when `isNaN` is false and the token string otherwise. |
| TokenParser.KeyBracedValue | script.js:121-126 | From an idle state, a key token and then a braced token store the braced text as a string. The key is then cleared. |
| TokenParser.RunInsideBlock | script.js:130-131 | Inside a block, tokens without a closing brace each add a space and the token minus its last character. |
| TokenParser.BlockValue | script.js:127-137 | An opening token, inner tokens and a closing token store, under the pending key, the opening text after `{` followed by each later token's contribution. Each later token contributes a space and its text minus the last character. |
| TokenParser.DanglingKeyDropped | script.js:138-139 | A trailing key token with no value after it leaves the parsed record unchanged. |
| TokenParser.LastValueWins | script.js:140-144 | A key given again later takes the later value. |
| TokenParser.InnerTokenLosesLastChar | script.js:131 | `Parse("title {a b c}")` stores `"a  c"`: every later token of a block loses its last character. |
| TokenParser.OpeningTokenRestartsBlock | script.js:127-129 | `Parse("k {a {b c}")` stores `"b c"`: a second opening token inside a block discards the text gathered so far. |
| TokenParser.BracedTokenWithoutKey | script.js:121-126 | `Parse("{x}")` stores "x" under the key "": a braced token with no pending key uses the empty key. |
| TokenParser.BracedValueStaysString | script.js:121-126 | `k {d}`, with no space or brace inside d, stores d as a string under k, even when d is a number. |
| TokenParser.BracedNumberStaysString | script.js:121-126 | `pressure {9}` stores the string "9". |
| TokenParser.BracedPairs | script.js:120-145 | A run of `k {d}` pairs, with plain keys and no space or brace in any d, stores every d as a string under its k, a later pair overwriting an earlier one with the same key, and leaves no key pending. |
| JsValue.PlainValue | script.js:142 | A token is stored as its number exactly when `isNaN` is false, and as the token string otherwise. A blank token becomes NaN. |
| JsValue.IntToStringRoundTrip | script.js:142 | The decimal text of any integer passes the `isNaN` test and is read back as that integer. |
| Strings.Split | script.js:118 | `split` gives at least one part. Joining the parts with the separator gives back the input, and no part contains the separator. |
| Strings.SplitCount | script.js:58 | `split` gives one part more than there are separator occurrences. |
| Strings.SplitJoinChar | script.js:118 | Splitting on one character undoes joining with it when no part contains that character. |
| Strings.IndexOf | script.js:122-123 | `indexOf` is absent exactly when the pattern never occurs. Otherwise it is the first occurrence. |
| Strings.Trim | script.js:151 | `trim` cuts only white space, and only at the two ends: the result is a slice of the input with all-white-space text before and after it. It leaves no white space at either end, never lengthens the text, and gives "" exactly for all-white-space text. |
| Strings.TrimPadded | script.js:151 | Trimming removes exactly the white space around a trimmed word. |
| SectionExtractor.MatchLine | script.js:51 | The marker match is absent exactly when the marker never occurs. Otherwise it is the text from the first occurrence of the marker up to the next line terminator: it starts with the marker and holds no line terminator. |
| SectionExtractor.SkipLines | script.js:51 | Whole lines without the marker before the text do not change the match. |
| SectionExtractor.FirstLineWins | script.js:62 | The first line holding the marker is the one matched, whatever follows. |
| SectionExtractor.ShotPayload | script.js:51-52 | The steps text is absent exactly when there is no shot marker. It is empty exactly when the matched line has at most 18 characters. |
| SectionExtractor.StepFragments | script.js:52-58 | The step strings join back, with `} {`, into the steps text. There is one more of them than there are separators, and none contains a separator. They are absent when the steps text is missing or empty. |
| SectionExtractor.ExtractAdvancedShot | script.js:50-59 | Absent exactly when the marker is missing or the line is too short to hold steps. Otherwise there is one record per step string, each parsed on its own, in order. |
| SectionExtractor.ShotRoundTrip | script.js:50-59 | A line `advanced_shot {{P}}` gives back the steps text P, split on `} {`, with each step string parsed. |
| SectionExtractor.GetTitle | script.js:150-156 | The title has no white space at either end and is no longer than the line. |
| SectionExtractor.PlainTitleRoundTrip | script.js:150-156 | An unbraced title with white space around it is read back exactly. |
| SectionExtractor.BracedTitleRoundTrip | script.js:150-156 | A title in one pair of braces, with white space anywhere around or inside them, is read back exactly. |
| SectionExtractor.OneBraceLayer | script.js:152-154 | Only one layer of braces is removed: `{{w}}` gives `{w}`. |
| SectionExtractor.ExtractTitle | script.js:61-69 | The title is absent exactly when there is no title marker. Otherwise it is trimmed. |
| SectionExtractor.QuotedTitleLine | script.js:61-69 | A line `profile_title {w}` gives the title w. |
| SectionExtractor.ClassicItalianTitle | script.js:61-69 | `profile_title {Classic Italian}` gives "Classic Italian". |
| SchemaMapper.PhaseOf | script.js:82-107 | The phase is never skipped. It is FLOW exactly when `pump` is "flow", and its curve is INSTANT exactly when `transition` is "fast". It has stop bounds exactly when `exit_if` is truthy, and those bounds are the four exit values. |
| SchemaMapper.PhaseKeepsFlowAndPressure | script.js:86-91 | Whichever the type, the phase's flow value (target or restriction) is the step's `flow` and its pressure value is the step's `pressure`. |
| SchemaMapper.PhaseTime | script.js:92-94 | The stop time is the step's seconds times 1000. A number string is converted first, and a missing `seconds` gives NaN. |
| SchemaMapper.PhaseDependsOnStepKeysOnly | script.js:82-107 | Two steps that agree on the ten keys the mapping reads give the same phase. |
| SchemaMapper.ExitIfZero | script.js:97 | An `exit_if` holding the string "0" adds bounds. The value the parser stores for the token `0` does not. |
| SchemaMapper.ToPhases | script.js:82 | One phase per step, each mapped on its own, in order. |
| SchemaMapper.ConvertToGaggiuinoSchema | script.js:71-109 | No id, the title as name, global stop time 0, weight 40, water pumped 0, water temperature 93, an empty recipe, and one phase per step in order. |
| SchemaMapper.PhasesFollowSteps | script.js:82 | Reordering or repeating the steps reorders or repeats the phases the same way. |
| SchemaMapper.TwentyFive | script.js:93 | The seconds token "25" reads as the number 25. |
| SchemaMapper.ExampleControl | script.js:83-91 | A pressure step with fast transition gives a PRESSURE phase with an INSTANT curve, the pressure as target and the flow as restriction. |
| SchemaMapper.ExampleTime | script.js:92-94 | 25 seconds gives a stop time of 25000. |
| SchemaMapper.ExampleBounds | script.js:97-104 | With `exit_if` "true" and only `exit_pressure_over` set, the bounds are that value and three `undefined`. |
| SchemaMapper.PressureStepExample | script.js:82-107 | The whole phase for a typical pressure step. |
| NameSanitizer.SanitizeFileName | script.js:158-160 | The name is the title with every unsafe character replaced by a space in place, and only the spaces at the two ends cut off. Every character of the name is a safe character or a space, both ends are safe characters, and the name is no longer than the title. |
| NameSanitizer.SanitizePadded | script.js:158-160 | Unsafe characters and spaces around a name with safe ends are cut off, and every unsafe character inside the name becomes a space in its place. |
| NameSanitizer.SlashBecomesSpace | script.js:158-160 | "a/b" gives "a b". |
| NameSanitizer.SafeNameUnchanged | script.js:158-160 | A name that is already safe and trimmed is returned unchanged. |
| NameSanitizer.SanitizeIdempotent | script.js:158-160 | Sanitizing twice is the same as sanitizing once. |
| NameSanitizer.UnsafeTitleGivesEmptyName | script.js:158-160 | A title made only of unsafe characters gives the empty name. |
| NameSanitizer.ClassicItalianName | script.js:158-160 | "Classic Italian" is kept as it is. |
| Pipeline.ProcessFile | script.js:17-29 | The run stops for missing shot data exactly when the steps cannot be extracted. It stops for a missing title exactly when steps exist and no title marker does. It stops for an empty title exactly when the extracted title is "". Otherwise the profile is `convertToGaggiuinoSchema` of the extracted title and steps: no id, global stop time 0, weight 40, water pumped 0, water temperature 93, an empty recipe, named by the non-empty trimmed title, and one phase per step string, each mapped from its parsed record. |
| Pipeline.DocumentSteps | script.js:21-22 | Lines without the shot marker before an `advanced_shot {{P}}` line do not change the extracted steps. |
| Pipeline.DocumentTitle | script.js:24-25 | A `profile_title {w}` line as the first line gives the title w, whatever follows. |
| Pipeline.WellFormedDocument | script.js:17-29 | A title line followed by a shot line converts to the profile named by the title, with the steps split and parsed. |
| Pipeline.ExampleStepParsed | script.js:111-148 | The step text `pump {pressure} pressure {9} flow {2} transition {fast} seconds {25} exit_if {true} exit_pressure_over {10}` parses into the record the schema-mapping examples are stated on. |

## Left out

- Page wiring is not modelled: the file input, `FileReader`, the error box and `console.error`. `showError` appears only as the message text (`Pipeline.Message`).
- `downloadJSON` is not modelled: `JSON.stringify`, the `Blob`, the object URL and the download link. The file-name rule it uses is modelled as `NameSanitizer.SanitizeFileName`.
- Numbers are exact reals, not IEEE doubles. Rounding of `parseFloat` and of `seconds * 1000` is not modelled.
- JsValue.StringToNumber: only decimal literals are read as numbers, meaning an optional sign, digits and at most one point. Exponent forms, hexadecimal, `Infinity` and numeric separators read as NaN here. `parseFloat` of a prefix such as `12abc` does not arise, because such a token fails `isNaN` first.
- A `char` is a Unicode scalar value, as Dafny defines it; JavaScript strings are sequences of UTF-16 code units. A character outside the Basic Multilingual Plane is one `char` in the model but two code units in the source, and a lone surrogate cannot be written at all. Such characters therefore count once in the model where the source counts them twice: `sanitizeFileName("a😀b")` gives "a", two spaces and "b" in the source but "a b" in the model, and the offsets of `slice(14)` and `slice(16, -2)` shift the same way.
- General regular-expression semantics are not modelled. Only the two fixed patterns used are, as "from the first marker to the next line terminator".
- The `value` variable of `parseStringToObject` that outlives a token is not modelled, because no later token reads it.
- Values that are objects, and stores through setters other than `__proto__`'s, are not modelled: every stored value is a string or a number.
