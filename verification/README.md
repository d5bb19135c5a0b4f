# ACFT score calculator — a Dafny model

This project models the scoring core of a web calculator for the Army Combat Fitness Test (ACFT):

- `calculateScore` maps a raw measurement of one of six events to a score. It is table-driven, clamps, interpolates and rounds.
- The form handler `handleSubmit`:
  - refuses to score without an age and a gender,
  - converts the two `MM:SS` times to seconds,
  - parses the other fields,
  - scores each event and totals the six scores.
- Both copies of `getScoreInterpretation` turn the total into one of five levels. The results-screen copy also attaches a message.
- The results screen shows the six event scores as a fixed list of tiles.

The program's JavaScript numbers are modelled by `JsNumber.Number`. It is either `Finite(real)` or `NaN`:

- Exact reals stand in for doubles.
- `Math.round(x)` is `Floor(x + 0.5)`.
- `NaN` is what `parseInt`/`parseFloat` return for a field with no digits. It flows through the scoring and the sum.

The form's text fields are parsed by models of the global `parseInt` and `parseFloat`:

- leading white space,
- a sign,
- `0x` for `parseInt`,
- the longest digit prefix,
- for `parseFloat`, a fraction and an exponent.

They follow ECMAScript 2015 sections 18.2.4 and 18.2.5. `String.prototype.split` on one character is modelled too.

The scoring function is modelled **as written**. The inverted branch for the two time events interpolates on `min - (value - max)`. That is the intended curve shifted up by `40 * max / (min - max)`:

- +65 for the run, so interior run times score 125 to 165.
- About +26.7 for the sprint-drag-carry, so interior times score 87 to 127.
- The score jumps from 100 at 13:00 to 165 at 13:01.

The model proves these as-written facts. A corrected curve sits beside it, with the intended properties proved (see Findings).

The program's own pages promise a maximum of 100 points per event (src/components/ACFTScoringSection.tsx:18 and :222) and a maximum total of 600 (src/components/InfoSection.tsx:21). Both the toast and the results screen print the total as `total/600` (src/components/ACFTCalculator.tsx:109, src/components/calculator/ScoreResults.tsx:73). The scoring code does not keep to that:

- The form converts times to whole seconds, so the sprint-drag-carry scores at most 126.
- A submitted total with every field parsed lies in [360, 691].
- The form "2:01" / "13:01" with every other event at its top reaches 691, and a 683 total is exhibited as well.

The model follows the code.

Modules:

- `JsNumber` (`js_number.dfy`): numbers, NaN propagation, `Math.round`.
- `JsParse` (`js_parse.dfy`): `split`, `parseInt`, `parseFloat`.
- `ACFTScoring` (`acft_scoring.dfy`): the bound table, `calculateScore`, the corrected curve.
- `ACFTCalculator` (`acft_calculator.dfy`): the inline copy of `calculateScore`, time conversion, `handleSubmit`, the calculator's level function.
- `ScoreResults` (`score_results.dfy`): the results screen's interpretation and tile list.

## Model

| member | source | states |
|---|---|---|
| JsNumber.Round | src/components/calculator/ACFTScoring.tsx:34 | `Math.round(x)` is an integer within half a unit of `x`: `x - 1/2 < r <= x + 1/2` |
| JsNumber.RoundMonotone | src/components/calculator/ACFTScoring.tsx:40 | rounding preserves the order of its arguments |
| JsParse.Split | src/components/ACFTCalculator.tsx:84 | `split(':')` yields at least one part and no part contains the separator |
| JsParse.JoinSplit | src/components/ACFTCalculator.tsx:84 | joining the parts of a split with the separator gives back the original text |
| JsParse.SplitAtFirstSeparator | src/components/ACFTCalculator.tsx:88 | text `a + ':' + rest` with no colon in `a` splits into `a` followed by the parts of `rest` |
| JsParse.ParseIntShow | src/components/ACFTCalculator.tsx:85 | `parseInt` reads the decimal spelling of any natural number back as that number, whatever non-digit follows, except an `x`/`X` right after a lone `0` (which `parseInt` reads as a hex prefix) |
| JsParse.ShowLeadingDigit | src/components/ACFTCalculator.tsx:85 | the decimal spelling of a positive number does not start with `0`, so it never begins a hex prefix |
| JsParse.ParseIntTenX | src/components/ACFTCalculator.tsx:85 | `parseInt("10x")` is 10: an `x` after a nonzero number just ends it |
| JsParse.ZeroPaddedDigit | src/components/ACFTCalculator.tsx:85 | a seconds part padded with a leading zero, such as "01", reads as its digit |
| JsParse.ParseInt | src/components/ACFTCalculator.tsx:85 | every number `parseInt` returns is a whole number |
| JsParse.ParseFloat | src/components/ACFTCalculator.tsx:93 | text without a decimal digit parses to NaN, and a negative result needs a `-` after the leading white space |
| JsParse.ParseFloatShow | src/components/ACFTCalculator.tsx:93 | `parseFloat` reads the decimal spelling of any natural number back as that number when the next character is no digit and no `.`, and no nonzero exponent follows; a bare `e`, as in "5ex", is covered |
| JsParse.ParseFloatBareE | src/components/ACFTCalculator.tsx:93 | `parseFloat("5ex")` is 5: an `e` with no exponent digits after it ends the number |
| JsParse.ParseFloatPointDigits | src/components/ACFTCalculator.tsx:93 | `parseFloat("i.f")` is the decimal value `i + f / 10^|f|` |
| JsParse.ParseFloatTwelveAndAHalf | src/components/calculator/ACFTScoring.tsx:16 | the power-throw bound 12.5, typed into the form, parses to exactly 12.5 |
| JsParse.ParseFloatFourAndAHalf | src/components/calculator/ACFTScoring.tsx:16 | the power-throw bound 4.5, typed into the form, parses to exactly 4.5 |
| JsParse.EmptyParseIntIsNaN | src/components/ACFTCalculator.tsx:92 | an empty integer field parses to NaN |
| JsParse.EmptyParseFloatIsNaN | src/components/ACFTCalculator.tsx:93 | an empty power-throw field parses to NaN |
| ACFTScoring.Score | src/components/calculator/ACFTScoring.tsx:23-41 | a key outside the table scores 0; a key in the table scores at least 60 |
| ACFTScoring.InvertedScore | src/components/calculator/ACFTScoring.tsx:27-34 | a time row whose thresholds fall and whose fast threshold is not negative never scores below its `minScore` |
| ACFTScoring.CalculateScore | src/components/calculator/ACFTScoring.tsx:12-42 | an unknown key scores 0; for a known key the score is a number exactly when the value is; every numeric score is an integer |
| ACFTScoring.ZeroExactlyForUnknownEvents | src/components/calculator/ACFTScoring.tsx:23-24 | a finite value scores 0 exactly when the key is not one of the six events |
| ACFTScoring.ScoreIgnoresDemographics | src/components/calculator/ACFTScoring.tsx:12-42 | age and gender never change a score |
| ACFTScoring.TableShape | src/components/calculator/ACFTScoring.tsx:14-27 | the keys are exactly the four rising events plus `sprintDragCarry` and `run`; only those two take the inverted branch, and each row is ordered the way its branch expects |
| ACFTScoring.HigherIsBetterScore | src/components/calculator/ACFTScoring.tsx:36-40 | for a rising row the score lies between `minScore` and `maxScore`; `HigherIsBetterMonotone` adds that it never drops as the value grows |
| ACFTScoring.HigherIsBetterWithin | src/components/calculator/ACFTScoring.tsx:36-40 | a rising row's score lies between its two score ends |
| ACFTScoring.HigherIsBetterMonotone | src/components/calculator/ACFTScoring.tsx:36-40 | a rising row's score never drops as the value grows |
| ACFTScoring.RisingEventScores | src/components/calculator/ACFTScoring.tsx:36-40 | deadlift, power throw, push-ups and leg tuck/plank score 100 at or above `max`, 60 at or below `min`, always within [60, 100], and never less for a larger value |
| ACFTScoring.RisingEventExamples | src/components/calculator/ACFTScoring.tsx:36-40 | deadlift 240 and push-ups 35 score 80; the bounds themselves score 60 and 100 |
| ACFTScoring.TimeEventClamps | src/components/calculator/ACFTScoring.tsx:29-30 | a time at or below the fast threshold scores 100; one at or above the slow threshold scores 60 |
| ACFTScoring.InvertedInteriorClosedForm | src/components/calculator/ACFTScoring.tsx:31-34 | strictly between the thresholds the time score is `round(60 + 40 * (min + max - value) / (min - max))` |
| ACFTScoring.InvertedInteriorNonIncreasing | src/components/calculator/ACFTScoring.tsx:31-34 | strictly between the thresholds a longer time never scores more |
| ACFTScoring.InvertedOffset | src/components/calculator/ACFTScoring.tsx:31-34 | strictly between the thresholds the time score is the corrected curve plus `40 * max / (min - max)`, rounded |
| ACFTScoring.RunInteriorRange | src/components/calculator/ACFTScoring.tsx:29-34 | run times strictly between 13:00 and 21:00 score from 125 to 165 |
| ACFTScoring.SprintDragCarryInteriorRange | src/components/calculator/ACFTScoring.tsx:29-34 | sprint-drag-carry times strictly between 2:00 and 5:00 score from 87 to 127 |
| ACFTScoring.SprintDragCarryWholeSeconds | src/components/calculator/ACFTScoring.tsx:29-34 | a sprint-drag-carry time in whole seconds scores at most 126 |
| ACFTScoring.SprintDragCarryHalfSecond | src/components/calculator/ACFTScoring.tsx:29-34 | 120.5 s scores 127, so 126 is a bound for whole seconds only |
| ACFTScoring.KnownEventScoreRange | src/components/calculator/ACFTScoring.tsx:23-41 | for any real value, every known event scores at least 60; rising events at most 100, the sprint-drag-carry at most 127, the run at most 165 |
| ACFTScoring.CalculateScoreBounds | src/components/calculator/ACFTScoring.tsx:12-42 | a numeric score of a known event lies in [60, cap], where the cap is 100, 127 or 165 |
| ACFTScoring.TimeScoreExamples | src/components/calculator/ACFTScoring.tsx:29-34 | run 810 s scores 163; 780 s scores 100 but 781 s scores 165; sprint-drag-carry 120 s scores 100 but 121 s scores 126 |
| ACFTScoring.IntendedInvertedWithin | src/components/calculator/ACFTScoring.tsx:31-34 | the corrected time score stays between the row's score ends |
| ACFTScoring.IntendedInvertedMonotone | src/components/calculator/ACFTScoring.tsx:31-34 | the corrected time score never rises as the time grows, across both thresholds |
| ACFTScoring.IntendedScoreBoundedAndMonotone | src/components/calculator/ACFTScoring.tsx:12-42 | with the correction every known event scores in [60, 100]; time events never increase and the others never decrease with the value |
| ACFTScoring.IntendedDiffersOnlyInside | src/components/calculator/ACFTScoring.tsx:29-34 | the correction changes a score only for a time event strictly between its thresholds |
| ACFTScoring.IntendedTimeExamples | src/components/calculator/ACFTScoring.tsx:31-34 | with the correction run 810 s scores 98, 781 s scores 100 and 1020 s scores 80 |
| ACFTCalculator.InlineCalculateScore | src/components/ACFTCalculator.tsx:37-67 | the calculator's copy scores a key outside its table 0, and scores a key in the table as a number exactly when the value is a number |
| ACFTCalculator.InlineInvertedAgrees | src/components/ACFTCalculator.tsx:53-59 | for every table row and value, the inline lower-is-better branch gives the shared function's score |
| ACFTCalculator.InlineRisingAgrees | src/components/ACFTCalculator.tsx:60-65 | for every table row and value, the inline higher-is-better branch gives the shared function's score |
| ACFTCalculator.InlineTableAgrees | src/components/ACFTCalculator.tsx:39-46 | the calculator's copy of the bound table is the same table |
| ACFTCalculator.InlineCalculateScoreAgrees | src/components/ACFTCalculator.tsx:37-67 | the calculator's inline `calculateScore` returns the shared function's value for every input |
| ACFTCalculator.TimeToSeconds | src/components/ACFTCalculator.tsx:84-89 | a converted time is a whole number of seconds or NaN |
| ACFTCalculator.SecondsOfParts | src/components/ACFTCalculator.tsx:85 | the minutes part read by `parseInt`, times 60, plus the seconds part read by `parseInt` (or 0 when it is missing), is a whole number or NaN |
| ACFTCalculator.TimeToSecondsOfParts | src/components/ACFTCalculator.tsx:84-85 | `m:s` with colon-free, non-empty parts converts to `parseInt(m) * 60 + parseInt(s)` |
| ACFTCalculator.TimeToSecondsOfMinutes | src/components/ACFTCalculator.tsx:84-85 | a time with no colon reads seconds as 0 |
| ACFTCalculator.TimeToSecondsOfMinutesColon | src/components/ACFTCalculator.tsx:84-85 | a time ending in a lone colon reads the empty seconds part as 0 |
| ACFTCalculator.MinutesSecondsToSeconds | src/components/ACFTCalculator.tsx:84-89 | the text `m:s` converts to `60 * m + s` seconds for all naturals `m`, `s` |
| ACFTCalculator.MinutesToSeconds | src/components/ACFTCalculator.tsx:84-85 | the text `m` converts to `60 * m` seconds |
| ACFTCalculator.MinutesColonToSeconds | src/components/ACFTCalculator.tsx:84-85 | the text `m:` converts to `60 * m` seconds |
| ACFTCalculator.EmptyTimeIsNaN | src/components/ACFTCalculator.tsx:84-85 | an empty time field converts to NaN seconds |
| ACFTCalculator.RunTimeExample | src/components/ACFTCalculator.tsx:84-85 | "13:30" is 810 seconds |
| ACFTCalculator.SprintTimeExample | src/components/ACFTCalculator.tsx:88-89 | "1:33" is 93 seconds |
| ACFTCalculator.MinutesOnlyExample | src/components/ACFTCalculator.tsx:84-85 | "13" is 780 seconds |
| ACFTCalculator.SprintTimeTwoOhOne | src/components/ACFTCalculator.tsx:88-89 | "2:01" is 121 seconds |
| ACFTCalculator.RunTimeThirteenOhOne | src/components/ACFTCalculator.tsx:84-85 | "13:01" is 781 seconds |
| ACFTCalculator.ObjectValues | src/components/ACFTCalculator.tsx:101 | `Object.values` lists the six event scores in declaration order, then the total |
| ACFTCalculator.Reduce | src/components/ACFTCalculator.tsx:101-102 | a NaN accumulator or a NaN operand makes the fold NaN; `ReduceIsSum` gives its value otherwise |
| ACFTCalculator.ReduceIsSum | src/components/ACFTCalculator.tsx:101-102 | the `reduce` with `+` is the plain sum of its operands, and NaN exactly when some operand is NaN |
| ACFTCalculator.WithTotal | src/components/ACFTCalculator.tsx:98-103 | adding the placeholder and subtracting it again leaves the six scores unchanged; the total is the exact sum of the six, and NaN exactly when one of them is |
| ACFTCalculator.ScoreEvents | src/components/ACFTCalculator.tsx:91-97 | each of the six fields is `calculateScore` of its own parsed input under its own key |
| ACFTCalculator.ComputeScores | src/components/ACFTCalculator.tsx:91-103 | the record holds the six event scores of the form; its total is a number exactly when all six are, and then it is their sum |
| ACFTCalculator.Submit | src/components/ACFTCalculator.tsx:72-105 | with age or gender empty the stored scores are left as they were; otherwise they become the freshly computed record |
| ACFTCalculator.LegTuckPlankTypeIgnored | src/components/ACFTCalculator.tsx:96 | the leg tuck/plank choice changes nothing that is submitted |
| ACFTCalculator.SprintDragCarryFieldScore | src/components/ACFTCalculator.tsx:88-95 | whatever the sprint-drag-carry field holds, its score is NaN or lies in [60, 126] |
| ACFTCalculator.SubmittedTotalRange | src/components/ACFTCalculator.tsx:91-103 | when every field parses, the submitted total lies in [360, 691] |
| ACFTCalculator.FastFormScores | src/components/ACFTCalculator.tsx:91-97 | a maximal form with a 2:30 sprint-drag-carry and a 13:30 run scores 100, 100, 100, 120, 100 and 163 |
| ACFTCalculator.TotalCanExceed600 | src/components/ACFTCalculator.tsx:98-109 | that form is accepted and totals 683, which the toast prints as 683/600 |
| ACFTCalculator.TotalReaches691 | src/components/ACFTCalculator.tsx:72-103 | the form with times "2:01" and "13:01" and every other event at its top is accepted and totals 691, so the bound of `SubmittedTotalRange` is reached |
| ACFTCalculator.IntendedTotalWithin600 | src/components/ACFTCalculator.tsx:91-103 | with the corrected time curve, the six event scores of any six numeric values total between 360 and 600 |
| ScoreResults.Interpret | src/components/calculator/ScoreResults.tsx:23-59 | the level and the message are those of the band, the band being the number of thresholds 360, 420, 480, 540 the total reaches |
| ScoreResults.BandMonotone | src/components/calculator/ScoreResults.tsx:23-58 | a larger total never falls into a lower band |
| ScoreResults.LevelThresholds | src/components/calculator/ScoreResults.tsx:23-58 | each level is shown exactly for its half-open interval of totals; "Needs Improvement" exactly below 360 or for NaN |
| ScoreResults.LevelExamples | src/components/calculator/ScoreResults.tsx:23-58 | 600 and 540 are Excellent, 480 Very Good, 420 Good, 360 Satisfactory, 359 Needs Improvement |
| ACFTCalculator.CalculatorLevel | src/components/ACFTCalculator.tsx:113-119 | the calculator names "Needs Improvement" exactly for totals below 360 and NaN |
| ScoreResults.LevelsAgree | src/components/ACFTCalculator.tsx:113-119 | the calculator's level and the results screen's level agree for every total |
| ScoreResults.CalculatorLevelMonotone | src/components/ACFTCalculator.tsx:113-119 | the calculator's level is the band's name, and a larger total never gets a lower band |
| ScoreResults.MessageFollowsLevel | src/components/calculator/ScoreResults.tsx:23-58 | two totals get the same message exactly when they get the same level |
| ScoreResults.FailingMessageExactly | src/components/calculator/ScoreResults.tsx:52-58 | "Additional training required…" is shown exactly for totals below 360 and NaN |
| ScoreResults.SatisfactoryMessage | src/components/calculator/ScoreResults.tsx:45-51 | a total in [360, 420) gets "You passed! Focus on improving weak areas." |
| ScoreResults.NaNNeedsImprovement | src/components/calculator/ScoreResults.tsx:52-58 | a NaN total falls through every comparison to "Needs Improvement" |
| ScoreResults.ParsedFormPasses | src/components/calculator/ScoreResults.tsx:45-58 | a submitted form whose fields all parse never gets "Needs Improvement" |
| ScoreResults.FastFormExcellent | src/components/calculator/ScoreResults.tsx:24-30 | the 683 form is Excellent |
| ScoreResults.DisplayList | src/components/calculator/ScoreResults.tsx:86-93 | six tiles, labelled Deadlift, Power Throw, Push-ups, Sprint-Drag-Carry, Leg Tuck/Plank and 2-Mile Run, showing the six event scores in record order |
| ScoreResults.DisplayIgnoresTotal | src/components/calculator/ScoreResults.tsx:86-93 | changing the total changes no tile: the total is not in the list |
| ScoreResults.LabelsDistinct | src/components/calculator/ScoreResults.tsx:86-93 | no two tiles carry the same label |
| ScoreResults.TilesSumToTotal | src/components/calculator/ScoreResults.tsx:73-96 | for a submitted record the tiles add up to the total shown above them, and the total is a number exactly when every tile is |
| ScoreResults.BarCanOverflow | src/components/calculator/ScoreResults.tsx:96-101 | the 683 form's run tile shows 163, so its bar's percentage width exceeds 100 |

## Left out

- Rendering: JSX, Tailwind classes, colours, background colours, icons and the tile emojis. The level's colour fields are dropped from `Interpret` and `CalculatorLevel`.
- The `toast` notifications and React state hooks. The stored `scores` state is the `Option<ScoreRecord>` argument and result of `ACFTCalculator.Submit`.
- `shareScore` and `printResults` (src/components/ACFTCalculator.tsx:121-173). They open windows and write documents, which is browser I/O.
- The static content components, the page shell, and the form widgets that fill `FormData`.
- IEEE-754 doubles: numbers are exact reals. Rounding error in the interpolation, overflow to Infinity, and `-0` are not modelled.
- JsParse.ParseFloat: does not read the literal `Infinity`, because no score can be computed from it.
- ACFTScoring.CalculateScore: treats every key outside the six as unknown and scores it 0. On a plain JavaScript object, an inherited key such as `toString` would be found and would score NaN. The form only ever passes the six keys.
- ACFTCalculator.InlineCalculateScore: has the same gap. Its table is also a plain object (src/components/ACFTCalculator.tsx:39-49), so an inherited key would pass the `!eventData` test and score NaN, where the model scores 0.
- ACFTCalculator.Submit: the parsed age (src/components/ACFTCalculator.tsx:81) is passed along but never used, as in the source. The guard tests only for empty strings, which are the falsy values a text field can hold.

## Findings

| source | as written | input that shows it | evidently intended | confidence | as-written member | corrected member |
|---|---|---|---|---|---|---|
| src/components/calculator/ACFTScoring.tsx:31-34 | the inverted branch interpolates on `min - (value - max)`, adding `40 * max / (min - max)` to the score (+65 for the run, about +26.7 for the sprint-drag-carry) | run 781 s scores 165 while 780 s scores 100; sprint-drag-carry 121 s scores 126 while 120 s scores 100 | interpolate on `min - value`: 60 at the slow threshold, 100 at the fast one, never above 100 and never rising with the time | high; not executed | ACFTScoring.TimeScoreExamples | ACFTScoring.IntendedScoreBoundedAndMonotone |

`ACFTScoring.InvertedOffset` states the offset for every interior time. `ACFTScoring.IntendedInvertedMonotone` and `ACFTCalculator.IntendedTotalWithin600` state what the correction restores:
- time scores within [60, 100],
- monotone time scores,
- totals of at most 600.

The form handler and the results screen are modelled on the as-written curve, because that is what the program computes. This is why a submitted total can reach 691, and why an all-numeric form can never be rated "Needs Improvement".
