# tailwind-vertical-rhythm, modelled in Dafny

The plugin generates Tailwind utility classes that put text on a baseline grid. Each combination of font family, font size and line height gets one class. The class's line height is snapped to a whole number of grid rows, and it is never below the font's cap height. Its padding and negative margin shift the baseline onto a grid line.

The model follows `index.js` part by part:

- `Rhythm` (rhythm.dfy) models the rhythm arithmetic: `roundToMultiple`, `rhythmShift` and `rhythmLineHeight`, over exact reals.
- `Warnings` (warnings.dfy) models `warn`. It is a class whose `warned` set the method updates. A ghost log records the messages emitted.
- `Validate` (validate.dfy) models the two validators. Each is a hand-written recogniser for its regular expression, returning the decimal value as an exact rational. They are methods that warn on the warner. The same module models `filterValidValues`, a loop proved equal to the functions `Kept` (the entries kept, with their values) and `Complaints` (the warnings, in order).
- `Format` (format.dfy) models `formatRem` on the integer count of thousandths that `Math.round(x * 1000)` yields.
- `Names` (names.dfy) models the font family selector and the class name.
- `Generate` (generate.dfy) models:
  - the declarations of `setFontWithRhythm`;
  - the alias of the default line height;
  - the three nested loops that write the utilities map;
  - the plugin body as a whole.
- `Scenario` (scenario.dfy) follows one configuration from the theme entries to the utilities.
- `Chars` (chars.dfy) defines JavaScript's `\s` and `\d` and decimal digit strings.
- `Wrappers` (wrappers.dfy) defines `Option`.

The host's inputs become parameters:

- the rhythm height;
- the entries of `verticalRhythm.fontCapHeight`;
- the raw theme entries for `fontSize` and `lineHeight`;
- `verticalRhythm.defaultLineHeight`;
- the escape function `e`, an uninterpreted `string -> string`.

Inside the plugin, `setFontWithRhythm` is a closure over the configured rhythm height. The model writes it as `Generate.SetFontOf(rhythmHeight)`. The loops and the combination lemmas are stated for any such closure, and `Generate.Plugin` passes the rhythm one.

## Model

| member | source | states |
|---|---|---|
| Warnings.Warner.Warn | index.js:10-17 | The message is emitted exactly when it was not yet in `warned`. Afterwards it is in `warned`, nothing is removed, and a repeated message changes nothing. |
| Warnings.FreshIsNew | index.js:10-17 | The messages a sequence of warnings emits are never repeated: exactly the ones not already warned. |
| Rhythm.RoundToMultipleIsMultiple | index.js:24-37 | The result is `base` or `base + multiple`, where `base = floor(value/multiple)*multiple`. Either way it is an integer multiple of `multiple`. |
| Rhythm.RoundedDownBounds | index.js:25 | `base <= value < base + multiple`, and `base` is a multiple. |
| Rhythm.RoundUpIsAbove | index.js:30-32 | `up` gives a result strictly above `value`. An exact multiple still moves up one step. |
| Rhythm.RoundDownIsBelow | index.js:33-35 | `down` gives `base`, which is at most `value`. |
| Rhythm.RoundNearestWithinHalf | index.js:28-32 | `nearest` is within `multiple/2` of `value`. A tie rounds up. |
| Rhythm.RoundNearestIsClosest | index.js:28-36 | No multiple of `multiple` is closer to `value` than the `nearest` result. |
| Rhythm.LineHeightOnGrid | index.js:55-72 | The line height times 16 is an integer multiple of the rhythm height times 16. |
| Rhythm.LineHeightAboveCapHeight | index.js:65-68 | The line height is never below the cap height. It is strictly above it when the correction fires. |
| Rhythm.UncorrectedIsNearest | index.js:62-63 | Without the correction, the line height is the `nearest` rounding of the desired height, and no whole number of rows is closer to the desired height. |
| Rhythm.CorrectionFromExactMultiple | index.js:66-67 | Take a cap height that is itself a grid multiple. When it is corrected to, the result is one full row above it, because `up` always steps. |
| Rhythm.RhythmShift | index.js:44-47 | `lineHeight = fontSize*capHeightFraction + 2*shift`. |
| Rhythm.ShiftOfRhythmLineHeight | index.js:44-72 | For a line height that `rhythmLineHeight` computed, the shift is never negative. |
| Rhythm.ExampleLineHeight | index.js:55-72 | With height 0.5, a cap height of 0.705, 1rem and a desired 1.5, the line height is 1.5 and the shift is 0.3975. |
| Validate.ScanNumeralRecognises | index.js:79 | The numeral scanner succeeds exactly on `(?:\d*\.)?\d+`. |
| Validate.ParseUnitlessExactly | index.js:79-85 | `validateIsUnitless`'s parse yields `v` exactly when the value is spaces, a numeral of value `v`, then spaces. Both directions are proved. |
| Validate.ParseUnitlessPadded | index.js:79-85 | Any space padding around a numeral is accepted and yields the numeral's value. |
| Validate.ParseRemExactly | index.js:96-102 | An accepted rem value ends in `rem`. Appending `rem` to a unitless value gives the same parse. |
| Validate.ParseRemOfNumeral | index.js:96-102 | A numeral followed by `rem` parses to the numeral's value. |
| Validate.AcceptsBareFraction | index.js:79 | `.5` parses to 1/2. |
| Validate.AcceptsPaddedDecimal | index.js:79 | ` 1.5 ` parses to 3/2. |
| Validate.AcceptsSpaceBeforeRem | index.js:96 | `1 rem` parses to 1. |
| Validate.RejectsTrailingDot | index.js:79-83 | `5.` is rejected. |
| Validate.RejectsPx | index.js:79-83 | `1px` is rejected. |
| Validate.RejectsEmpty | index.js:79-83 | The empty string is rejected. |
| Validate.RejectsTwoDots | index.js:79-83 | `1.2.3` is rejected. |
| Validate.RejectsSpaceAfterRem | index.js:96-100 | `1rem ` is rejected: no space is allowed after `rem`. |
| Validate.RejectsPxAsRem | index.js:96-100 | `14px` is rejected as a rem value. |
| Validate.SingletonArrayLikeString | index.js:78-96 | Both validators read a one-element array like its element. The rem validator takes `value[0]`, and the unitless one takes the array's string form. |
| Validate.RemReadsFirstElement | index.js:93-95 | The rem validator reads only an array's first element; the rest is ignored. An empty array gives the text `undefined`, which is rejected. |
| Validate.ParseUnitlessOfNumeral | index.js:79-85 | A numeral without padding parses to its value. |
| Validate.ValidateIsUnitless | index.js:78-86 | The result is the unitless parse of the value. The value's warning is added to the warned set exactly when it is rejected, and emitted only if new. |
| Validate.ValidateIsRem | index.js:92-103 | The result is the rem parse of the value, or of its first element for an array. The warning is added exactly when it is rejected. |
| Validate.RunValidator | index.js:114 | The validator passed in is applied, with the same result and warnings. |
| Validate.FilterValidValues | index.js:110-117 | The loop returns the entries whose validator result is defined, in order, each paired with that result. The rejected entries' warnings are added to the warned set in order. |
| Validate.KeptExactly | index.js:113-116 | `(k, x)` is kept exactly when some entry has key `k` and validates to `x`. |
| Validate.KeptAppend | index.js:113-116 | Filtering keeps the original order: filtering `a + b` is filtering `a`, then filtering `b`. |
| Validate.DefinedExactly | index.js:116 | The filter keeps exactly the pairs whose result is defined. |
| Validate.ComplaintsExactly | index.js:110-117 | The warnings are exactly those of the rejected entries, each for its path `theme.<key>.<k>` and its value. |
| Format.RoundHalfUp | index.js:142 | `Math.round`: the integer within (y - 1/2, y + 1/2]. |
| Format.RoundHalfUpTies | index.js:142 | A tie rounds toward positive infinity. |
| Format.ThousandthsClose | index.js:142 | The rounded value is within half a thousandth of `x`. |
| Format.Fraction | index.js:144 | The fraction digits are non-empty decimal digits with no trailing zero. |
| Format.FractionValue | index.js:144 | Read as a decimal fraction, the digits are worth `frac/1000`. |
| Format.FormatShape | index.js:142-146 | The output is an optional `-`, the magnitude's rendering with any leading `0` dropped, then `rem`. |
| Format.FormatEndsInRem | index.js:144 | The output ends in `rem`. |
| Format.FormatSign | index.js:143-146 | The output begins with `-` exactly when the rounded value is negative. |
| Format.FormatZero | index.js:142-146 | A rounded zero is `0rem`. |
| Format.FormatDropsLeadingZero | index.js:145 | A magnitude below one starts with `.` right after the sign. |
| Format.FormatNegative | index.js:143-146 | A negative value renders as `-` followed by the rendering of its magnitude. |
| Format.FormatRoundTrip | index.js:142-146 | Parsing a non-negative rendering with the rem validator gives `n/1000` back. |
| Format.FormatRemRoundTrip | index.js:141-147 | For a value whose rounding is not negative, the output parses back to `round(x*1000)/1000`. |
| Format.FormatNoTrailingZero | index.js:144 | With a non-zero fraction, the last digit before `rem` is a non-zero digit. |
| Format.UnsignedValue | index.js:144 | The digits of `whole.frac` scan to `whole + frac/1000`. |
| Format.FormatBelowOne | index.js:144-145 | A count between 0 and 1000 renders as `.` then its fraction digits, then `rem`. |
| Format.FormatHalf | index.js:141-147 | 0.5 renders as `.5rem`. |
| Format.FormatMinus398 | index.js:141-147 | -0.398 renders as `-.398rem`. |
| Format.FormatNegativeBelowOne | index.js:143-146 | A count between -1000 and 0 renders as `-.`, its magnitude's fraction digits, then `rem`. |
| Format.FormatOne | index.js:141-147 | 1 renders as `1rem`. |
| Format.FormatOneAndAHalf | index.js:141-147 | 1.5 renders as `1.5rem`. |
| Format.Format398 | index.js:141-147 | 0.398 renders as `.398rem`. |
| Format.FormatMinus397 | index.js:141-147 | -0.397 renders as `-.397rem`. |
| Names.FirstSpace | index.js:179 | The index of the first whitespace character, or the length when there is none. |
| Names.ReplaceFirstRun | index.js:179 | Only the first whitespace run is replaced, by one `-`. What follows it is kept. |
| Names.ReplaceWithoutSpace | index.js:179 | A name without whitespace is unchanged. |
| Names.ToLower | index.js:179 | The length is kept and no `A`-`Z` is left. Each upper-case letter moves 32 code points down, and every other character is kept. |
| Names.ToLowerIdempotent | index.js:179 | Lower-casing twice is lower-casing once. |
| Names.DefaultSelector | index.js:177-189 | The family `default` has the selector `''`, so its class names are `.vr` and the line height and font size parts only. |
| Names.PlainSelector | index.js:177-179 | Any other family without whitespace has the selector `e` of its lower-cased name. |
| Names.SpacedSelector | index.js:177-179 | A family with whitespace is never `default`. Its selector is `e` of the lower-cased name with only the first whitespace run replaced by one `-`. |
| Names.ClassNameShape | index.js:183-189 | The class name is `.vr`, then `-` and each non-empty part among selector, line height key and font size key, in order. |
| Names.AliasClassName | index.js:183-189 | The alias entry yields `.vr[-family]-<font size key>`. |
| Names.ClassNameStartsWithVr | index.js:183-189 | Every class name begins with `.vr`. |
| Generate.SetFontWithRhythmValues | index.js:129-155 | The declarations are the rounded renderings of the font size, the shift, the negated shift and the snapped line height. The shift identity holds, the shift is not negative, and no family is set. |
| Generate.PaddingAndMargin | index.js:136-152 | `paddingTop` never starts with `-` and parses back to the rounded shift. `marginBottom` comes from a rounded value no greater than zero. |
| Generate.RuleOf | index.js:191-199 | A non-empty selector sets `fontFamily` to the raw family name. Every other declaration, and `fontFamily` for an empty selector, is the closure's. |
| Generate.RhythmRule | index.js:191-199 | With the rhythm closure, `fontFamily` is present exactly when the selector is non-empty. The other declarations are those of `setFontWithRhythm`. |
| Generate.Find | index.js:165-167 | Returns nothing exactly when no entry has the key. Otherwise it returns the value of the first entry with it. |
| Generate.DefaultAlias | index.js:163-171 | The alias is appended exactly when the default is truthy and matches an entry. It goes at the end, keyed `''`, with the first match's value, and the other entries are unchanged. |
| Generate.LineRow | index.js:182-200 | The innermost loop yields one result per line height, in order. |
| Generate.CombosLength | index.js:176-202 | There are `families × fontSizes × lineHeights` combinations. |
| Generate.CombosHas | index.js:176-202 | Every combination of family, font size and line height is produced. |
| Generate.CombosFrom | index.js:176-202 | Nothing else is produced. |
| Generate.StoreKeys | index.js:191 | The map's keys are exactly the class names written. |
| Generate.StoreLastWins | index.js:191 | The rule under a name is the one written last under it. A later combination overwrites an earlier one. |
| Generate.StoreSize | index.js:191 | There is at most one key per write, and exactly one per write when the names differ. |
| Generate.UtilityOfSomeCombination | index.js:176-202 | Every utility is the class name and rule of some combination. |
| Generate.CombinationHasUtility | index.js:176-202 | Every combination's class name is a utility. |
| Generate.UtilitiesCount | index.js:176-202 | There are at most `families × fontSizes × lineHeights` utilities, and exactly that many when the class names are distinct. |
| Generate.BuildUtilities | index.js:176-202 | The three nested loops produce exactly the map `Utilities`: the class names and rules of all combinations, in loop order, a later write winning. |
| Generate.BuildBlock | index.js:181-201 | The loop over font sizes for one family writes that family's block of rules. |
| Generate.BuildRow | index.js:182-200 | The loop over line heights writes one rule per line height, in order. |
| Generate.ClassAndRule | index.js:183-199 | The loop body's class name and rule are those of the combination: the rule is the closure's, with the family set when the selector is non-empty. |
| Scenario.EndToEnd | index.js:157-202 | A 0.5rem row, the family `default` with cap height 0.705, `base: '1rem'` and `normal: '1.5'` give exactly one utility, `.vr-normal-base`. It has font size `1rem`, padding `.398rem`, margin `-.397rem` and line height `1.5rem`. |
| Scenario.ExampleRule | index.js:129-155 | The declarations for that combination: 1.5rem is on the grid, and the shift 0.3975 rounds to 398 thousandths for the padding and to -397 for the margin. |
| Scenario.UtilitiesSingle | index.js:176-202 | One family, one font size and one line height give exactly the utility of their combination. |
| Generate.Plugin | index.js:157-202 | Font sizes in rem and unitless line heights are kept, the default alias is pushed, and the utilities are built with the rhythm closure. The warned set and log grow by the font size warnings, then the line height warnings. |

## Left out

- The host API (`addUtilities`, `config`, `theme`, `variants`) is not called. Its values are parameters, and the registration of the rules is not modelled.
- `console.warn` output is not modelled: only the `warned` set and the decision to emit (a ghost log).
- The `.vr-debug` rule (index.js:204-209) is always registered, independent of the theme entries. Its background tile is one row height tall. It is not part of this model.
- `variants('fontSize')` (index.js:211) is passed through to the host and is not modelled.
- JavaScript numbers are modelled as exact reals, and `Math.round` as exactly floor(y + 1/2). `Number.prototype.toString` is idealised as plain decimal digits of the thousandths count. The exponent notation used for very large or very small magnitudes, and IEEE-754 rounding error, are not modelled.
- `JSON.stringify` in the rem warning is modelled as wrapping the string in double quotes, without escaping.
- `toLowerCase` is modelled on ASCII letters only. Other Unicode case mappings are not modelled.
- Missing or non-numeric configuration (NaN, an absent `verticalRhythm.height`) is not modelled. A positive rhythm height is required instead.
- The order of `Object.entries` is taken as given: each input is a sequence of entries.
- JavaScript object key order in `utilities` is not modelled, because the utilities are a `map`.
- Generate.Plugin: `defaultLineHeight` is modelled as an optional string. Truthiness of other JavaScript values (numbers, for example) is not modelled.
- Format.FormatNegative: gives no round trip for negative values, because the rem validator rejects a leading `-`. It states instead that the rendering is `-` followed by the rendering of the magnitude.
