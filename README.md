# Grind-setting conversion and language paths, in Dafny

This project models the logic of a coffee-grinder setting converter.

A grinder is described by its settings, one per click position counted from 0. A position is either uncalibrated (`null`), or carries a number, or (for a text-scale grinder) a value with a label such as "Fine". To convert a setting of one grinder to another, `convert`:

1. collects the calibrated positions of each grinder;
2. keeps the positions calibrated in both (the overlap);
3. clamps the input into the source values of the overlap;
4. finds the bracketing segment by a linear scan;
5. interpolates linearly on that segment, guarding against a flat segment;
6. clamps the result into the target range;
7. reports a number rounded to one decimal, or the nearest labelled setting with first-wins ties.

`getRange` gives the first and last calibrated values of a grinder. A second, smaller part maps URL paths to interface languages and back, under a deployment base path.

Files:

- `wrappers.dfy`: `Option`.
- `convert.dfy` (module `Convert`): the data model and the pure helpers, as functions.
  - `convert` is an imperative method. Its bracketing loop is `InterpolateScan`, its nearest-setting loop is `SnapToNearest`, and the steps after the two guards are `ConvertOnOverlap` and `ResultRecord`. Each is proved equal to a specification function (`Interpolate`, `Nearest`, `Output`, `Conversion`).
  - The properties of those functions are proved as lemmas here and in `convert_properties.dfy` (module `ConvertProperties`).
- `convert_examples.dfy` (module `ConvertExamples`): the test fixtures, and the results the test suite expects of them, proved on the model.
- `i18n.dfy` (module `I18n`): the path and language helpers, as functions. `BASE` is a parameter `base`; `NormalizeBase` states how it is derived from `BASE_URL`.

Numbers are `real`, so clamping and interpolation are exact. Where the source formats a number with `String(...)`, the model keeps `Number(x)`; a label shown verbatim is `Label(s)`.

## Model

| member | source | states |
|---|---|---|
| Convert.SettingValue | src/utils/convert.ts:51-56 | The number stored at a calibrated position: the number itself for a numeric grinder, the value of the labelled setting for a text grinder. The `throw` on an uncalibrated position is excluded by `requires`, because every call passes a calibrated position. |
| Convert.DisplayValue | src/utils/convert.ts:36-41 | An uncalibrated position shows the empty string. A numeric grinder shows the number at the position. A text grinder shows the label stored together with the position's value. |
| Convert.ValidIndicesBelow | src/utils/convert.ts:44-48 | The calibrated positions below n: strictly ascending, each calibrated and below n, none missing. |
| Convert.ValidIndices | src/utils/convert.ts:44-48 | Strictly ascending, and a position is in it exactly when it is calibrated. |
| Convert.ValidIndicesExactly | src/utils/convert.ts:44-48 | Any strictly ascending list of exactly the calibrated positions is ValidIndices: the list is unique. |
| Convert.AscendingDetermined | src/utils/convert.ts:44-48 | Two strictly ascending lists with the same members are equal. |
| Convert.GetRange | src/utils/convert.ts:147-161 | None exactly when no position of the grinder is calibrated. |
| Convert.GetRangeEnds | src/utils/convert.ts:147-161 | Otherwise min and max are the values at the least and the greatest calibrated positions, and the display strings are those positions' DisplayValue. |
| Convert.Overlap | src/utils/convert.ts:73 | Keeps exactly the members of the first list that are in the second, and keeps an ascending list ascending. |
| Convert.OverlapOf | src/utils/convert.ts:67-73 | The overlap is strictly ascending, every member is calibrated in both grinders, and every position calibrated in both is a member. |
| Convert.OverlapOfExactly | src/utils/convert.ts:73 | Any strictly ascending list of exactly the positions calibrated in both grinders is the overlap. |
| Convert.ValuesAt | src/utils/convert.ts:76-77 | One value per given position, and that value is the setting value there. The `throw` on a null position is excluded, because every position given is calibrated. SourceValues and TargetValues are ValuesAt of the source and the target grinder over the overlap, so this contract is theirs. |
| Convert.TextSettingsAt | src/utils/convert.ts:124 | One setting per overlap position. Its value is the position's setting value, and its label is what DisplayValue shows there. |
| Convert.ValuesAtSorted | src/utils/convert.ts:76-77 | Values read at ascending positions of a grinder whose values grow with position are sorted. |
| Convert.Clamp | src/utils/convert.ts:86 | `max(lo, min(hi, x))`, the clamp that ClampInput applies with the first and last source values. With lo <= hi the result is in [lo, hi], equals x exactly when x is in range, and is lo below and hi above. With lo > hi the result is lo. |
| Convert.ClampMonotone | src/utils/convert.ts:86 | Clamping never reverses the order of two inputs. |
| Convert.Round1 | src/utils/convert.ts:114 | Rounding to one decimal, halves up: the result is a whole number of tenths within (x - 0.05, x + 0.05]. |
| Convert.Round1Unique | src/utils/convert.ts:114 | That whole number of tenths is unique: any multiple of 0.1 in (x - 0.05, x + 0.05] is Round1(x). |
| Convert.Round1Keeps | src/utils/convert.ts:114 | A whole number of tenths is left unchanged. |
| Convert.Round1Monotone | src/utils/convert.ts:114 | Rounding never reverses the order of two values. |
| Convert.BracketFrom | src/utils/convert.ts:89-97 | The scan from i stops at i <= lower <= len-2. There, sv[lower+1] >= c or lower == len-2, and no earlier position passed the test. |
| Convert.Bracket | src/utils/convert.ts:89-97 | lower <= len-2, sv[lower+1] >= c or lower == len-2, and sv[j] < c for every 0 < j <= lower: no earlier i had sv[i+1] >= c. |
| Convert.BracketUnique | src/utils/convert.ts:89-97 | Those three conditions determine lower. |
| Convert.BracketContains | src/utils/convert.ts:89-97 | For sorted source values and c in their range, sv[lower] <= c <= sv[lower+1]. |
| Convert.Lerp | src/utils/convert.ts:99-105 | A flat segment gives the segment's first target value, with no division. |
| Convert.LerpOnLine | src/utils/convert.ts:102-104 | Off a flat segment, (c, result) lies on the straight line through the segment's two end points. |
| Convert.LerpWithin | src/utils/convert.ts:99-105 | On a rising segment that contains c, the result lies between the segment's two target values. |
| Convert.LerpMonotone | src/utils/convert.ts:102-104 | On a rising segment, a larger c never gives a smaller result. |
| Convert.LerpAtEnds | src/utils/convert.ts:99-105 | The segment's first source value gives its first target value, and off a flat segment the last source value gives the last target value. |
| Convert.Interpolate | src/utils/convert.ts:97-105 | On the bracketing segment [lower, lower+1]: a flat segment gives the target value at lower. Otherwise (c, result) lies on the straight line through the segment's two (source, target) points. |
| Convert.InterpolateOnBracket | src/utils/convert.ts:97-105 | upper is lower + 1, and the result is the segment formula on [lower, lower + 1]. |
| Convert.InterpolateFlat | src/utils/convert.ts:97-101 | upper is always lower+1. On a flat segment the result is the target value at lower, with no division. |
| Convert.InterpolateWithinSegment | src/utils/convert.ts:99-105 | On a rising segment containing c, the result lies between the segment's two target values. |
| Convert.InterpolateMonotoneOnSegment | src/utils/convert.ts:103-104 | On one segment, a larger c never gives a smaller result. |
| Convert.InterpolateMonotone | src/utils/convert.ts:89-105 | For sorted source and target values, a larger c in the source range never gives a smaller result. |
| Convert.InterpolateAtCalibration | src/utils/convert.ts:89-105 | A source value at a calibration point (the first position holding it) maps to that point's target value. |
| Convert.NearestIn | src/utils/convert.ts:125-134 | Among the first n settings, the chosen one is at distance <= every other, and every earlier setting is strictly farther (first wins on a tie). |
| Convert.Nearest | src/utils/convert.ts:125-134 | NearestIn over all the settings: the chosen setting is at distance <= every other, and every earlier one is strictly farther. |
| Convert.Position | src/utils/convert.ts:86-108 | The clamped, interpolated, re-clamped value is >= the first target value. It is <= the last target value whenever the target range is not crossed. TargetPosition is Position over a pair of grinders' overlap values. |
| Convert.PositionMonotone | src/utils/convert.ts:86-108 | For sorted values, a larger input never gives a smaller position. |
| Convert.PositionAtCalibration | src/utils/convert.ts:86-108 | A calibration point is left alone by clamping and lands on its own target value. |
| Convert.InterpolateScan | src/utils/convert.ts:88-105 | The loop with `break` and the interpolation compute Interpolate: the bracket of Bracket, then the flat-guarded linear formula. |
| Convert.SnapToNearest | src/utils/convert.ts:124-134 | The scan with strict `<` returns the setting at Nearest: the nearest, first on a tie. |
| Convert.Output | src/utils/convert.ts:112-143 | `exact` is passed through. A numeric target reports Round1 of the value, shown as that number, with the first and last target values as range. A text target reports the value and label of one of the overlap settings, with the labels at the first and last overlap positions as range. |
| Convert.Conversion | src/utils/convert.ts:62-144 | The specification of convert: the result is null exactly when the grinders share fewer than two calibrated positions. |
| Convert.OverlapNeedsCalibration | src/utils/convert.ts:67-74 | Two shared calibrated positions are two calibrated positions in each grinder, so the per-grinder guard never decides on its own. |
| Convert.ConversionOutput | src/utils/convert.ts:76-143 | With two shared positions, the result is the record for the interpolated value, with `exact` set by whether clamping changed the input. |
| Convert.Convert | src/utils/convert.ts:62-144 | The method's result equals the Conversion specification for every input. |
| Convert.ConvertOnOverlap | src/utils/convert.ts:76-110 | Past both guards, the steps build the record that Conversion specifies. |
| Convert.ResultRecord | src/utils/convert.ts:112-143 | The record is Output: the rounded number with the target range, or the nearest label with the first and last overlap labels. |
| ConvertProperties.AbsentWithoutCalibration | src/utils/convert.ts:70 | A grinder with fewer than two calibrated positions gives null. |
| ConvertProperties.ExactIffInSourceRange | src/utils/convert.ts:86-110 | `exact` holds exactly when the input lies in [first, last] source value. If the source range is crossed, `exact` holds exactly at the first source value. |
| ConvertProperties.BoundariesAreExact | src/utils/convert.ts:86-110 | Both ends of the source range convert with `exact` true. |
| ConvertProperties.OutputExactOnly | src/utils/convert.ts:112-142 | `exact` changes only the `exact` field of the record. |
| ConvertProperties.ClampPastEnds | src/utils/convert.ts:86 | An input below the first source value clamps to it, and one above a not-crossed range clamps to the last; each end clamps to itself. |
| ConvertProperties.ClampsToEnd | src/utils/convert.ts:86-110 | An input that clamps to the same source value as a given end, without being that end, gives the end's record with `exact` false. |
| ConvertProperties.ClampsBelowRange | src/utils/convert.ts:86-110 | An input below the source range gives the result of the first source value, with `exact` false. |
| ConvertProperties.ClampsAboveRange | src/utils/convert.ts:86-110 | An input above the source range gives the result of the last source value, with `exact` false. |
| ConvertProperties.OverlapValuesSorted | src/utils/convert.ts:76-77 | For grinders whose values grow with position, the overlap's source and target values are sorted. |
| ConvertProperties.CalibrationPointsConvertExactly | src/utils/convert.ts:86-110 | A calibration point converts exactly to its own target value. |
| ConvertProperties.ConversionMonotone | src/utils/convert.ts:86-108 | For grinders whose values grow with position, a larger input never gives a smaller interpolated value. |
| ConvertProperties.NumericResultMonotone | src/utils/convert.ts:108-121 | For grinders whose values grow with position, a larger input never gives a smaller numeric result. |
| ConvertProperties.NumericTargetRounds | src/utils/convert.ts:112-121 | A numeric target reports the interpolated value rounded to one decimal, shown as that number. min and max are the first and last target values. |
| ConvertProperties.TextTargetRangeLabels | src/utils/convert.ts:136-142 | A text target reports min and max as the labels at the first and last overlap positions. |
| ConvertProperties.TextTargetSnapsToNearest | src/utils/convert.ts:124-138 | A text target reports an overlap setting (value and label) nearest to the interpolated value, and no earlier overlap setting is as near. |
| ConvertExamples.NumericRange | src/utils/convert.test.ts:30-37 | getRange of the 1..5 grinder is 1 to 5, shown as numbers. |
| ConvertExamples.TextRange | src/utils/convert.test.ts:39-46 | getRange of the text grinder is 5 to 15, shown as Fine to Coarse. |
| ConvertExamples.EmptyRange | src/utils/convert.test.ts:48-50 | getRange of an all-null grinder is null. |
| ConvertExamples.ConvertsCalibrationPoint | src/utils/convert.test.ts:54-62 | 3 converts to 30 exactly. The range 10 to 50 is the one the test at lines 115-119 expects. |
| ConvertExamples.InterpolatesBetweenPoints | src/utils/convert.test.ts:64-70 | 2.5 converts to 25. |
| ConvertExamples.SnapsToFine | src/utils/convert.test.ts:72-80 | 2 converts to the setting labelled Fine. |
| ConvertExamples.ClampsBelow | src/utils/convert.test.ts:82-88 | 0 converts to 10, not exact. |
| ConvertExamples.ClampsAbove | src/utils/convert.test.ts:90-96 | 10 converts to 50, not exact. |
| ConvertExamples.ConvertsLowBoundary | src/utils/convert.test.ts:98-103 | 1 converts to 10, exact. |
| ConvertExamples.NoResultWithoutCalibration | src/utils/convert.test.ts:105-113 | A grinder with one calibrated position, or none, gives null. |
| ConvertExamples.TextRangeLabels | src/utils/convert.test.ts:121-125 | Converting to the text grinder shows the range as Fine to Coarse. |
| ConvertExamples.ConvertsHighBoundary | src/utils/convert.test.ts:127-132 | 5 converts to 50, exact. |
| ConvertExamples.FlatSegment | src/utils/convert.test.ts:134-151 | Source values [5, 5] against [10, 20]: 5 converts to 10. |
| I18n.NormalizeBase | src/i18n/index.ts:11 | One trailing slash is removed: if BASE_URL ends with '/', BASE + "/" is BASE_URL, and otherwise BASE is BASE_URL. |
| I18n.NormalizedBaseTrailingSlash | src/i18n/index.ts:11 | BASE ends with '/' exactly when BASE_URL ends with "//". |
| I18n.NormalizedBaseExamples | src/i18n/index.ts:11 | "/holy-grind/" gives "/holy-grind", "/" gives "", and "//" gives "/". |
| I18n.Split | src/i18n/index.ts:15 | `split('/')`: at least one piece, and no piece holds a slash. |
| I18n.JoinSplit | src/i18n/index.ts:15 | Joining the pieces with '/' gives the string back. |
| I18n.SplitJoin | src/i18n/index.ts:15 | Splitting the join of slash-free pieces gives the pieces back. |
| I18n.NonEmpty | src/i18n/index.ts:15 | `filter(Boolean)`: every kept piece is non-empty, a piece is kept exactly when it is non-empty, and the first kept piece is the first non-empty piece (all pieces before it are empty). |
| I18n.NonEmptyConcat | src/i18n/index.ts:15 | Filtering keeps order and multiplicity: the filter of a + b is the filter of a followed by the filter of b. |
| I18n.FirstSegment | src/i18n/index.ts:15 | The first segment is non-empty and slash-free, and it is the first non-empty piece of `split('/')`: every piece before it is empty. There is none exactly when the path is made of slashes only. |
| I18n.SegmentAfterSlash | src/i18n/index.ts:15 | In "/" + s, for a non-empty slash-free s, the first segment is s. |
| I18n.StripBase | src/i18n/index.ts:14 | When the path starts with BASE, BASE + rest is the path. Otherwise the path is used as it is. |
| I18n.GetLanguageFromPathAsWritten | src/i18n/index.ts:13-17 | With the source's `in` test, the result is 'en' or a first segment that `in` accepts. |
| I18n.GetLanguageFromPath | src/i18n/index.ts:13-17 | Always a key of SUPPORTED_LANGUAGES. Anything other than 'en' is the path's first segment after BASE. |
| I18n.LanguageFromSegment | src/i18n/index.ts:13-17 | For every path, the first segment after BASE is returned unchanged when it passes the membership test, and 'en' is returned otherwise. This is stated for both the source's `in` test and the own-key test. |
| I18n.GetLanguagePath | src/i18n/index.ts:19-21 | The path starts with BASE, followed by "/" for 'en' and by "/" + lang for any other language. |
| I18n.LanguagePathRoundTrip | src/i18n/index.ts:13-21 | For every supported language l and every BASE, the path of l selects l. |
| I18n.AsWrittenRoundTrip | src/i18n/index.ts:13-21 | The source's own lookup, with JavaScript's `in`, also maps the path of every supported language back to that language. |
| I18n.RootSelectsDefault | src/i18n/index.test.ts:19-33 | "/" and "" select 'en', under both membership tests. |
| I18n.RussianSegment | src/i18n/index.test.ts:23-25 | "/ru" selects 'ru', under both membership tests. |
| I18n.UnsupportedSegment | src/i18n/index.test.ts:27-29 | "/fr" selects 'en', under both membership tests. |
| I18n.LanguagePathExamples | src/i18n/index.test.ts:36-43 | 'en' maps to "/" and 'ru' to "/ru". |
| I18n.PrototypeNameSelected | src/i18n/index.ts:16 | With the source's test, BASE + "/" + n selects n for every inherited Object.prototype name n, and no such n is a language. The corrected lookup selects 'en'. |
| I18n.ToStringSelected | src/i18n/index.ts:16 | "/toString" selects "toString" with the source's test. |
| I18n.AsWrittenDiffersOnlyOnPrototypeNames | src/i18n/index.ts:16 | The source's lookup and the corrected one disagree only where the source returns an inherited Object.prototype name. |

## Left out

- Number formatting: `String(number)` is kept as `Number(x)`. The model states nothing about digit strings.
- Floating point: all values are reals. `Math.round(x * 10) / 10` is modelled as exact half-up rounding, so float representation error is not modelled. NaN and infinite inputs are not modelled either.
- `parseDecimal` is imported by the tests and the converter form, but its body is not part of the modelled `convert.ts`. It is not part of this model.
- `id` and `name` of a grinder are carried, but `convert` and `getRange` never read them.
- Values that grow with the click position (`Monotone`) are an assumption about the catalogue data. The source does not check it, so the conversion is modelled for any data. Only the ordering lemmas (monotone conversion, calibration points converting exactly) assume it, as a `requires`.
- The React components (`Converter`, `GrinderSelect`, `LanguageSwitcher`, `Result`, `App`) are not modelled: they are UI state over a framework.
- Not modelled either: the i18next initialisation, the writes to `document`, the `fetch` of the catalogue, and `history`/`popstate`. They are I/O with the browser.
- `import.meta.env.BASE_URL` is a build-time constant. It is the parameter `base` (after `NormalizeBase`) of the language helpers.
- The test at src/utils/convert.test.ts:105-108 is named for the overlap guard. Its fixture has only one calibrated position, so it is the first guard (src/utils/convert.ts:70) that returns null. `ConvertExamples.NoResultWithoutCalibration` states it that way.

## Findings

| source | as written | input that shows it | evidently intended | confidence | as-written member | corrected member |
|---|---|---|---|---|---|---|
| src/i18n/index.ts:16 | `seg in SUPPORTED_LANGUAGES` uses JavaScript's `in`, which is also true for names inherited from Object.prototype. | `getLanguageFromPath('/toString')` returns `'toString'`, which is not a supported language. `SUPPORTED_LANGUAGES['toString'].label` (src/components/LanguageSwitcher.tsx:28) is then undefined. The same holds for `constructor`, `valueOf`, `__proto__` and the other inherited names. | Only own keys count, so the result is always 'en' or 'ru'. | high; not executed | I18n.GetLanguageFromPathAsWritten, I18n.PrototypeNameSelected, I18n.ToStringSelected | I18n.GetLanguageFromPath |
