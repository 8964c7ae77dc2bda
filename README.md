# Punch-log time calculator

The calculator reads a free-text log of punch times and reports the day's
attendance. Each line of the log is one punch, written `H:MM:SS AM|PM`. It
reports:

- which lines are valid punches and which are not;
- the time worked, pairing the valid punches by position (IN, OUT, IN, OUT, …);
- the breaks between an OUT and the IN after it;
- the time still to work against the 8h15m target, and whether it is complete;
- whether the user is clocked in right now;
- while clocked in and short of the target, the projected time of day at which
  the target is reached.

The project models the calculator's logic in four modules:

- `Text` covers JavaScript's `trim` (over the ECMAScript whitespace set shared
  with the regular-expression class `\s`), `split("\n")`, the classes `\d`/`\s`,
  and decimal numerals (`parseInt` and template-literal printing).
- `PunchParser` models `parseTime`. The anchored pattern
  `^(\d{1,2}):(\d{2}):(\d{2})\s*(AM|PM)$`i is a decomposition into fields
  (`Fields`, `WellShaped`, `Render`). `Scan` finds that decomposition, and
  `ScanComplete` proves it finds every one. The range check and the 12-hour to
  24-hour conversion follow.
- `DurationFormat` models `formatDuration`.
- `Calculator` models the constants `TARGET_*`, the records `BreakInfo` and
  `CalculationResult`, and the body of `calculate`:
  - `PartitionEntries` is the `forEach` that pushes into three lists.
  - `SumPairs` and `CollectBreaks` are the two loops that step by two.
  - `CalculateLines`/`Calculate` add the open punch, the target comparison and
    the projection.

  Each method is proved against pure definitions (`ValidLines`, `InvalidLines`,
  `ParsedTimes`, `PairedWork`, `Worked`, `Breaks`, `TotalDuration`). The
  predicate `IsCalculation` gathers everything the result promises.

Conventions:

- Times are whole seconds since midnight of the current day. `parseTime`
  sets the milliseconds to zero, so whole seconds are exact.
- The clock sample `currentTime` is a parameter.
- Durations are whole seconds. The minutes of `calculate` are these seconds
  divided by 60.
- The partition and the result predicate take the line parser as a parameter
  `parse`. `CalculateLines` and `Calculate` pass `ParseTime`.

## Model

| member | source | states |
|---|---|---|
| Text.TrimStart | src/pages/Index.tsx:13 | the leading-whitespace half of `trim()`: the result is a suffix of the line, the part dropped is whitespace only, and the result does not start with whitespace |
| Text.TrimEnd | src/pages/Index.tsx:13 | the trailing-whitespace half of `trim()`: the result is a prefix, the part dropped is whitespace only, and the result does not end with whitespace |
| Text.Trim | src/pages/Index.tsx:13 | `trim()`: never longer than the line, no whitespace at either end, and empty exactly when the line is whitespace only |
| Text.TrimInfix | src/pages/Index.tsx:13 | what `trim()` keeps is an infix of the line with only whitespace on either side |
| Text.TrimIdempotent | src/pages/Index.tsx:13 | trimming an already trimmed line changes nothing (`calculate` trims lines that `parseTime` trims again) |
| Text.Split | src/pages/Index.tsx:78 | `split("\n")`: at least one piece, no piece contains a newline, and joining the pieces with newlines gives the log back |
| Text.SplitJoin | src/pages/Index.tsx:78 | the other round trip: newline-free pieces, joined then split, come back unchanged |
| Text.SplitPrefix | src/pages/Index.tsx:78 | a newline-free prefix is glued to the first piece of what follows it |
| Text.NatToString | src/pages/Index.tsx:35 | the numeral a template literal prints: digits only, no leading zero, and read back it is the number |
| Text.DigitChar | src/pages/Index.tsx:17-19 | the digit character whose `parseInt` value is the given digit |
| Text.Pad2 | src/pages/Index.tsx:18-19 | a two-digit group as the pattern's `(\d{2})` requires it, read back to the number |
| Text.IsSpace | src/pages/Index.tsx:12-13 | the ECMAScript WhiteSpace and LineTerminator characters, the set both `trim()` strips and `\s` matches (a definition; `Text.Trim` and `PunchParser.WellShaped` use it) |
| Text.IsDigit | src/pages/Index.tsx:12 | the characters `\d` matches, `0` to `9` (a definition; `Text.AllDigits` and `PunchParser.WellShaped` use it) |
| Text.Join | src/pages/Index.tsx:78 | the pieces glued back with a newline between neighbours, the inverse `split("\n")` is measured against (a definition; `Text.Split` and `Text.SplitJoin` use it) |
| Text.DigitsValue | src/pages/Index.tsx:17-19 | `parseInt(_, 10)` of a run of digits, most significant first (a definition; `Text.NatToString` and `Text.Pad2` are proved to read back through it) |
| PunchParser.IsPeriod | src/pages/Index.tsx:12 | the AM-or-PM group under the `i` flag: two letters, `a` or `p` then `m`, in either case (a definition; `PunchParser.WellShaped` uses it) |
| PunchParser.IsPm | src/pages/Index.tsx:20-24 | the period upper-cases to `PM` (a definition; `PunchParser.To24Hour` uses it) |
| PunchParser.WellShaped | src/pages/Index.tsx:12 | the shape each group of the pattern imposes: one or two hour digits, two minute and two second digits, a whitespace-only gap, a period (a definition; `PunchParser.Scan`, `PunchParser.ScanComplete` and `PunchParser.MatchesPattern` use it) |
| PunchParser.Render | src/pages/Index.tsx:12 | the text a decomposition spells: hour, colon, minute, colon, second, gap, period (a definition; `PunchParser.Scan` and `PunchParser.ScanComplete` use it) |
| PunchParser.MatchesPattern | src/pages/Index.tsx:12-13 | the anchored pattern matches the whole text: some well-shaped decomposition renders to it (a definition; `PunchParser.ScanMatchesPattern` uses it) |
| PunchParser.Scan | src/pages/Index.tsx:12-15 | soundness of the match: a decomposition that is found is well shaped and renders back to the text |
| PunchParser.ScanComplete | src/pages/Index.tsx:12-15 | completeness and uniqueness of the match: every well-shaped decomposition is the one the scan finds |
| PunchParser.ScanMatchesPattern | src/pages/Index.tsx:12-15 | the scan succeeds exactly when the text matches the pattern |
| PunchParser.To24Hour | src/pages/Index.tsx:24-25 | 12 AM is 0, 12 PM is 12, PM adds 12 to 1..11: the hour is below 24, in the morning exactly for AM, and agrees with the 12-hour reading modulo 12 |
| PunchParser.InRange | src/pages/Index.tsx:22 | the range check: hour 1..12, minute and second at most 59 (a definition; `PunchParser.ParseTimeAccepts` ties it to acceptance) |
| PunchParser.TimeOf | src/pages/Index.tsx:24-28 | the time of day the fields name lies within the day, and its seconds, minutes and hour are the seconds field, the minutes field and the 24-hour conversion of the hour field |
| PunchParser.ClockDecompose | src/pages/Index.tsx:28 | hour, minute and second are recovered from the second of the day `setHours` makes of them |
| PunchParser.ParseTime | src/pages/Index.tsx:11-30 | a parsed time of day is within the day, 0 ≤ t < 86400 |
| PunchParser.ParseTimeOfMatch | src/pages/Index.tsx:13-29 | a line whose trimmed text matches is accepted with the time of its fields when they are in range, and rejected otherwise |
| PunchParser.ParseTimeAccepts | src/pages/Index.tsx:11-22 | accept/reject: a line parses exactly when its trimmed text matches with hour 1..12, minute and second at most 59, and then to the time those fields name |
| PunchParser.ParseTimeIgnoresPadding | src/pages/Index.tsx:13 | the parser sees only the trimmed text |
| PunchParser.ClockFields | src/pages/Index.tsx:12-22 | the canonical 12-hour spelling of a time of day is well shaped and in range |
| PunchParser.ParseClockText | src/pages/Index.tsx:11-30 | every second of the day has a spelling the parser reads back to it |
| PunchParser.ClockFieldsTime | src/pages/Index.tsx:24-28 | the conversion and `setHours` give back the time of day the canonical spelling names |
| PunchParser.HalfDayHour | src/pages/Index.tsx:24-25 | the 12-hour reading and the half of the day give back the 24-hour hour |
| PunchParser.ParseTimeMorning | src/pages/Index.tsx:11-30 | `10:38:59 AM` is 38339 s |
| PunchParser.ParseTimeAfternoon | src/pages/Index.tsx:11-30 | `1:21:33 PM` is 48093 s: twelve hours are added |
| PunchParser.ParseTimeNineAm | src/pages/Index.tsx:11-30 | `9:00:00 AM` is 32400 s |
| PunchParser.ParseTimeOnePm | src/pages/Index.tsx:11-30 | `1:00:00 PM` is 46800 s |
| PunchParser.ParseTimeSixPm | src/pages/Index.tsx:11-30 | `6:00:00 PM` is 64800 s |
| PunchParser.ParseTimeMidnight | src/pages/Index.tsx:25 | `12:00:00 AM` is 0 |
| PunchParser.ParseTimeNoon | src/pages/Index.tsx:24 | `12:30:00 PM` stays in hour 12 |
| PunchParser.ParseTimeLowerCaseNoGap | src/pages/Index.tsx:12-20 | the marker is case-insensitive and may follow the seconds without a space |
| PunchParser.ParseTimeLastSecond | src/pages/Index.tsx:11-30 | `11:59:59 PM` is 86399 s, the last second of the day |
| PunchParser.ParseTimeLeadingZero | src/pages/Index.tsx:12-17 | a two-digit hour with a leading zero is accepted |
| PunchParser.ParseTimePadded | src/pages/Index.tsx:13 | any whitespace character on either side of `09:05:00 AM` (a space, a carriage return, …) is trimmed before matching |
| PunchParser.ParseTimeHourZero | src/pages/Index.tsx:22 | hour 0 matches the pattern but is rejected |
| PunchParser.ParseTimeHourThirteen | src/pages/Index.tsx:22 | hour 13 matches the pattern but is rejected |
| PunchParser.ParseTimeMinuteSixty | src/pages/Index.tsx:22 | minute 60 matches the pattern but is rejected |
| PunchParser.ParseTimeNoMarker | src/pages/Index.tsx:12-15 | a time without AM/PM is rejected |
| PunchParser.ParseTimeTrailingText | src/pages/Index.tsx:12-15 | text after the marker is rejected: the pattern is anchored |
| PunchParser.ParseTimeLongHour | src/pages/Index.tsx:12-15 | a three-digit hour is rejected |
| PunchParser.ParseTimeWord | src/pages/Index.tsx:12-15 | `MISSING` is rejected |
| PunchParser.TrimOneEach | src/pages/Index.tsx:13 | one whitespace character at each end is what `trim()` removes from a text without other outer whitespace |
| DurationFormat.FormatDuration | src/pages/Index.tsx:32-36 | `{h}h {m}m` of the magnitude; its contract is carried by `DurationFormat.FormatDurationReadBack` (the numerals are the whole hours and the rounded minutes) and `DurationFormat.FormatDurationSymmetric` (the sign is dropped) |
| DurationFormat.WholeHours | src/pages/Index.tsx:33 | the hours field is the whole hours of the magnitude: h·60 ≤ \|m\| < (h+1)·60 minutes |
| DurationFormat.RoundedMinutes | src/pages/Index.tsx:34 | the minutes field is what is left below the hour, rounded to the nearest minute with halves up; it is at most 60, not 59 |
| DurationFormat.FormatDurationSymmetric | src/pages/Index.tsx:32-36 | the sign is dropped: a duration and its negation display the same |
| DurationFormat.FramedNumeralsEqual | src/pages/Index.tsx:35 | the `h ` and `m` markers delimit the numerals unambiguously |
| DurationFormat.FormatDurationReadBack | src/pages/Index.tsx:32-36 | reading the display back: the hours numeral is the whole hours, the minutes numeral is at most 60, and together they are within half a minute of the magnitude |
| DurationFormat.FormatDurationExamples | src/pages/Index.tsx:32-36 | 125 min and −125 min display `2h 5m`, 0 displays `0h 0m`, 59 min 30 s displays `0h 60m` |
| DurationFormat.FormatDurationSamples | src/pages/Index.tsx:32-36 | 6h 59m 28s, 1h 15m 32s and 21m 33s display `6h 59m`, `1h 16m`, `0h 22m` |
| Calculator.TargetHours | src/pages/Index.tsx:7 | the daily target, 8 hours (a definition; `Calculator.TargetSeconds` uses it) |
| Calculator.TargetMinutes | src/pages/Index.tsx:8 | the 15 minutes on top of the target hours (a definition; `Calculator.TargetSeconds` uses it) |
| Calculator.TargetTotalMinutes | src/pages/Index.tsx:9 | the target in minutes, 8·60 + 15 = 495 (a definition; `Calculator.TargetSeconds` uses it) |
| Calculator.TargetSeconds | src/pages/Index.tsx:9 | the target in seconds, the unit the model keeps time in (a definition; `Calculator.IsCalculation` and `Calculator.CalculateLines` use it) |
| Calculator.BreakInfo | src/pages/Index.tsx:47-51 | one break: the OUT time, the following IN time and the duration between them, in seconds (a definition; `Calculator.BreakAt` builds it) |
| Calculator.CalculationResult | src/pages/Index.tsx:53-63 | the result record: the valid and invalid lines, worked and remaining time, the projected completion, complete and clocked-in flags, total break time and the break list (a definition; `Calculator.IsCalculation` constrains it) |
| Calculator.TrimmedNonBlank | src/pages/Index.tsx:78 | `.map(trim).filter(non-empty)`: no more lines than pieces, and none of them empty |
| Calculator.TrimmedNonBlankKeeps | src/pages/Index.tsx:78 | every piece that is not whitespace only survives trimmed, every line comes from a piece, and every line is already trimmed |
| Calculator.TrimAll | src/pages/Index.tsx:78 | `.map(l => l.trim())`: one trimmed piece per piece |
| Calculator.NonBlankFrom | src/pages/Index.tsx:78 | the positions `.filter` keeps, each one the position of a piece |
| Calculator.NonBlankFromExact | src/pages/Index.tsx:78 | the kept positions are strictly increasing and are exactly the pieces that are not whitespace only |
| Calculator.SelectedAtCons | src/pages/Index.tsx:78 | keeping one more element in front keeps the selection in order |
| Calculator.TrimmedNonBlankInOrder | src/pages/Index.tsx:78 | the lines are the order-preserving filter of the trimmed pieces: one line per kept position, and line k is the trimmed piece at the k-th kept position |
| Calculator.Lines | src/pages/Index.tsx:78 | the lines `calculate` works on, `TrimmedNonBlank(Split(log))` (a definition; its meaning is the `Text.Split` and `Calculator.TrimmedNonBlankInOrder` contracts) |
| Calculator.ValidLines | src/pages/Index.tsx:83-91 | the accepted lines, no more than the input lines |
| Calculator.InvalidLines | src/pages/Index.tsx:83-91 | the rejected lines; with the accepted ones they account for every line |
| Calculator.ParsedTimes | src/pages/Index.tsx:83-91 | one time per accepted line |
| Calculator.PartitionParses | src/pages/Index.tsx:84-90 | entry k of the valid list parses to time k of the parsed list, and every invalid entry fails to parse |
| Calculator.PartitionMultiset | src/pages/Index.tsx:83-91 | every line lands in exactly one of the two lists |
| Calculator.PartitionOrder | src/pages/Index.tsx:83-91 | each list keeps the input order: it is a subsequence of the lines |
| Calculator.SubsequenceExtend | src/pages/Index.tsx:83-91 | pushing a line to the input keeps an existing subsequence a subsequence |
| Calculator.PartitionEntries | src/pages/Index.tsx:79-91 | the `forEach` loop builds exactly the valid list, the invalid list and the parsed times |
| Calculator.SumPairs | src/pages/Index.tsx:93-100 | the pairing loop sums `out − in` over every complete IN/OUT pair |
| Calculator.PairedWork | src/pages/Index.tsx:93-100 | the sum of `out − in` over the first k pairs (a definition; `Calculator.SumPairs` is proved to compute it and `Calculator.WorkAndBreaksTile` relates it to the breaks) |
| Calculator.Worked | src/pages/Index.tsx:93-100 | the paired work plus `now − lastIn` when the count is odd (a definition; `Calculator.SpanIdentity` and `Calculator.OrderedDayWorkedNonNegative` state its properties) |
| Calculator.BreakAt | src/pages/Index.tsx:111-115 | break j, from OUT punch 2j+1 to IN punch 2j+2, lasting their difference (a definition; `Calculator.BreakListAt` uses it) |
| Calculator.BreakList | src/pages/Index.tsx:103-117 | the first k breaks, k of them |
| Calculator.BreakListAt | src/pages/Index.tsx:105-115 | break j runs from OUT punch 2j+1 to IN punch 2j+2 and lasts their difference |
| Calculator.BreakCount | src/pages/Index.tsx:105 | the number of breaks (a definition; `Calculator.BreakCountBounds` states it) |
| Calculator.BreakCountBounds | src/pages/Index.tsx:105 | the number of breaks is ⌊(n−1)/2⌋, and 0 for n ≤ 1: 2c+1 ≤ n ≤ 2c+2 whenever n ≥ 1 |
| Calculator.Breaks | src/pages/Index.tsx:103-117 | every break of the punches, in order (a definition; `Calculator.BreakListAt` states each break) |
| Calculator.TotalDuration | src/pages/Index.tsx:104-110 | the sum of the break durations (a definition; `Calculator.TotalDurationAppend` and `Calculator.WorkAndBreaksTile` state its properties) |
| Calculator.CollectBreaks | src/pages/Index.tsx:103-117 | the break loop records ⌊(n−1)/2⌋ breaks (none for n ≤ 1), in order, and their total |
| Calculator.TotalDurationAppend | src/pages/Index.tsx:110 | adding a break adds its duration to the total |
| Calculator.WorkAndBreaksTile | src/pages/Index.tsx:93-117 | the first k pairs and the k−1 breaks between them tile the span from the first punch to OUT punch 2k−1 |
| Calculator.SpanIdentity | src/pages/Index.tsx:93-123 | worked time plus break time is the span from the first punch to the last one, or to now while clocked in |
| Calculator.OrderedPunchesNonNegative | src/pages/Index.tsx:93-117 | for punches in time order, the paired work and every break are non-negative |
| Calculator.OrderedDayWorkedNonNegative | src/pages/Index.tsx:93-123 | for punches in time order and a clock not behind an open IN, the worked time is non-negative |
| Calculator.OutOfOrderPunchesSubtract | src/pages/Index.tsx:93-117 | punches 10, 5, 3: the pair subtracts 5 s from the worked time and the break is −2 s |
| Calculator.IsCalculation | src/pages/Index.tsx:119-145 | what the result of `calculate` is for given lines, parser and clock, field by field (a definition; `Calculator.CalculateLines` and `Calculator.Calculate` establish it) |
| Calculator.CalculateLines | src/pages/Index.tsx:79-145 | the whole result, as `IsCalculation` states it: the partition; worked = sum of pairs plus `now − lastIn` when the count is odd; the break list, count and total; clocked in iff the count is odd; remaining = 8h15m − worked; complete iff remaining ≤ 0; projection present iff not complete and clocked in, equal to now + remaining and later than now; nothing worked with no valid entry; work plus breaks span the punches |
| Calculator.Calculate | src/pages/Index.tsx:77-146 | the same for the log text, split into trimmed, non-blank lines |
| Calculator.PartitionFourThenOne | src/pages/Index.tsx:83-91 | four accepted lines then a rejected one: the four are the valid entries in order, the fifth the invalid one |
| Calculator.AllLinesParse | src/pages/Index.tsx:83-91 | when every line parses, all are valid and the times are their parses |
| Calculator.PartitionSnoc | src/pages/Index.tsx:83-91 | one more line goes to exactly one of the lists, at its end |
| Calculator.TwoPairsTimes | src/pages/Index.tsx:93-117 | punches 10:38:59, 13:00:00, 13:21:33, 18:00:00: 25168 s worked and one break of 1293 s |
| Calculator.TwoPairsDay | src/pages/Index.tsx:77-146 | the whole result for two pairs and a rejected line: `6h 59m` worked, `1h 16m` remaining, one break, not complete, not clocked in, no projection |
| Calculator.TwoPairsWithRejectedLine | src/pages/Index.tsx:77-146 | the same for the actual lines `10:38:59 AM`, `1:00:00 PM`, `1:21:33 PM`, `6:00:00 PM`, `MISSING` |
| Calculator.SingleOpenPunch | src/pages/Index.tsx:119-133 | one open punch: worked is now − start, complete once now reaches start + 8h15m, and the projection is start + 8h15m until then |
| Calculator.SingleClockIn | src/pages/Index.tsx:77-146 | clocked in at `9:00:00 AM`: the projection is 5:15:00 PM (62100 s) until then, and complete from then on |

## Left out

- The React component is not modelled: the JSX, `useState`, and the `setResult` call that publishes the result.
- The one-second `useEffect` clock tick is not modelled. The clock sample `currentTime` is a parameter in whole seconds; its milliseconds are dropped.
- `formatTime` is not modelled, because `toLocaleTimeString` is a locale-library call. A break's `startTime` and `endTime` are the raw seconds since midnight of its punches.
- The calendar, time zone and daylight-saving behaviour of `Date` is not modelled. `new Date()` plus `setHours` become a time of day in seconds since midnight, and every punch is on the same day, as in `calculate`.
- Floating-point arithmetic is not modelled. `calculate` divides milliseconds into fractional minutes (`/ 1000 / 60`) and multiplies back (`* 60 * 1000`). The model keeps exact whole seconds, and `formatDuration` takes seconds. Its `Math.round` is rounding half up of seconds/60, which is exact for the non-negative values it is given.
- `DurationFormat.FormatDuration`: `formatDuration` takes minutes as a floating-point number. Here the argument is whole seconds, so durations with fractions of a second are not covered.
- `Calculator.TrimmedNonBlank`: its own contract states only that the lines are non-empty and no more numerous than the pieces. Their order and multiplicity are stated in `Calculator.TrimmedNonBlankInOrder`, and that they are already trimmed in `Calculator.TrimmedNonBlankKeeps`.
- `Calculator.CalculateLines` and `Calculator.Calculate` return the result instead of storing it in component state.
- The remaining time is not clamped at zero, as in `calculate`. Once the target is passed it is negative, and only the display drops the sign.
- Half-day targets, an early-leave threshold and a first/second-half classification do not exist in `src/pages/Index.tsx`, so they are not modelled.
- JavaScript strings are UTF-16 code units. Here a string is a sequence of Unicode scalar values, which agrees with `parseTime` on every character the pattern accepts.
