# minicron core in Dafny

minicron reads daily jobs written as `minute hour task` lines. Each field is a number or the wildcard `*`. For every job it prints when the job fires next, seen from a current time, as `H:MM today` or `H:MM tomorrow`. This project models the part of minicron that does the work: the wildcard-aware field, the hour/minute time with its text form and its unusual ordering, the next-trigger computation, the output value, and the job-line parser. Each piece is a Dafny datatype with functions, and lemmas prove the properties the code promises.

The Swift code is pure, and so is the model:

| file | module | Swift source |
|---|---|---|
| `outcomes.dfy` | `Outcomes` | `init?` results (`Option`) and `throws` (`Result`) |
| `strings.dfy` | `Strings` | the Foundation services used (`components(separatedBy:)`, `CharacterSet.whitespaces`, `String(format:)` with `%d`/`%02d`), the program's own `String.isNumber` extension, and the value of a digit string |
| `cron_value.dfy` | `CronValues` | `minicron-framework/Model/CronValue.swift` (and `CronError`) |
| `cron_time.dfy` | `CronTimes` | `minicron-framework/Model/CronTime.swift`, except `nextTrigger` |
| `cron_output.dfy` | `CronOutputs` | `minicron-framework/Model/CronOutput.swift` |
| `next_trigger.dfy` | `NextTriggers` | `CronTime.nextTrigger(against:)` |
| `cron_job.dfy` | `CronJobs` | `minicron-framework/Model/CronJob.swift` |

`nextTrigger` is a method of `CronTime` in Swift, but it returns a `CronOutput`, and `CronOutput` parses `CronTime`s. Dafny modules cannot depend on each other in a cycle, so `nextTrigger` has its own module after both.

Behaviours of the code that the model keeps as written:
- The field `<` is `<=` on two fixed values. A wildcard is `<` everything, itself included, and a fixed value is never `<` a wildcard (CronValue.swift:61-70).
- The field `==` is true whenever either side is a wildcard. So `t < t` and `t == t` hold for every time.
- `init(hours:minutes:)` does not validate its fields, unlike `init(_:_:)` (CronTime.swift:95-105).
- A job `*:M` seen from `H:C` with `C > M` fires at `0:M tomorrow`, not at `(H+1):M` today.
- `Int(value) ?? 0` turns a digit string too large for a 64-bit `Int` into 0, which then passes the range check (`OverflowReadsAsZero`).
- `String(format: "%d")` and `"%02d"` read a 32-bit C `int`, so a fixed value of 2^31 or more renders by its low 32 bits: `.value(4294967296, .hours)` renders `0` (`RenderingNarrowsTo32Bits`). Only the public `.value` case and the unvalidated `init(hours:minutes:)` can hold such a value; the parsers and `init(_:_:)` build only 0…59.
- `CronOutput(rawValue:)` indexes `parts[1]` without a check. A valid time token with no whitespace after it traps, and the model returns `OutOfBounds` for that case.

## Model

| member | source | states |
|---|---|---|
| `CronValues.WhenRaw` | minicron-framework/Model/CronValue.swift:10-13 | the raw text of a day is its case name, `today` exactly for today, a single whitespace-free word |
| `CronValues.WhenFromRaw` | minicron-framework/Model/CronValue.swift:10-13 | only `today` and `tomorrow` are accepted, and each maps back to its own text |
| `CronValues.WhenRoundTrip` | minicron-framework/Model/CronValue.swift:10-13 | `CronWhen(rawValue:)` inverts `rawValue` |
| `CronValues.Validate` | minicron-framework/Model/CronValue.swift:90-101 | passes iff the integer is in the kind's range; otherwise fails with `invalidHoursRange` or `invalidMinutesRange` carrying the integer |
| `CronValues.FromInt` | minicron-framework/Model/CronValue.swift:40-43 | succeeds iff the integer is in 0…23 (hours) or 0…59 (minutes); otherwise throws that kind's range error carrying the integer |
| `CronValues.ReadInt` | minicron-framework/Model/CronValue.swift:34 | the digit string's value when it fits a 64-bit `Int`, otherwise 0 |
| `CronValues.ParseValue` | minicron-framework/Model/CronValue.swift:29-38 | `"*"` is the wildcard before any other check; otherwise a non-empty ASCII digit string is required (else `invalidNumber(s)`), and its value must then be in range (else the range error with that value); a success is valid for its kind |
| `CronValues.AsString` | minicron-framework/Model/CronValue.swift:48-59 | `*` exactly for the wildcard; a value in 0…2^31-1 renders as a numeral of its number, and any other value as that of its low 32 bits (`CInt`) when those are non-negative; hours are unpadded, minutes at least two characters; no separator character appears |
| `CronValues.Less` | minicron-framework/Model/CronValue.swift:61-70 | `<=` on two fixed numbers with tags ignored; true whenever the left side is a wildcard; false for fixed-vs-wildcard |
| `CronValues.Equal` | minicron-framework/Model/CronValue.swift:72-86 | true whenever either side is a wildcard; for two fixed values iff the numbers are equal, tags ignored |
| `CronValues.Max` | minicron-framework/Model/CronTime.swift:62-66 | Swift `max` under the field `<` returns an operand: the fixed one if only one is fixed, a value at least both numbers if both are, the wildcard only if both are wildcards |
| `CronValues.RenderingNarrowsTo32Bits` | minicron-framework/Model/CronValue.swift:48-59 | a fixed value renders exactly like the value 2^32 below it, for every value and kind |
| `CronValues.NarrowedRenderingExamples` | minicron-framework/Model/CronValue.swift:52-54 | `.value(2^32, .hours)` renders `0`, `.value(2^32 + 5, .minutes)` renders `05` |
| `CronValues.ParseAsString` | minicron-framework/Model/CronValue.swift:29-59 | parsing the rendering of a valid field with its own kind gives the field back |
| `CronValues.LeadingZeroParsesAlike` | minicron-framework/Model/CronValue.swift:33-36 | a leading `0` does not change the parse |
| `CronValues.LeadingZeroExample` | minicron-frameworkTests/ConfigValueTests.swift:118-125 | `"01"` and `"1"` give the same hour, 1 |
| `CronValues.NegativeTextIsNotANumber` | minicron-framework/Model/CronValue.swift:103-114 | `"-5"` fails with `invalidNumber` before any range check |
| `CronValues.OverflowReadsAsZero` | minicron-framework/Model/CronValue.swift:34-36 | a digit string above `Int.max` is accepted as the value 0 |
| `CronValues.RangeBoundaries` | minicron-frameworkTests/ConfigValueTests.swift:41-55 | 23 and 59 pass; 24, 60, -12 and -30 throw |
| `CronValues.RenderingExamples` | minicron-frameworkTests/ConfigValueTests.swift:59-89 | hour 1 renders `1`, minute 1 renders `01`, 12 renders `12` for both |
| `Strings.IsNumber` | minicron-framework/Model/CronValue.swift:111-115 | `isNumber`: non-empty and every character a decimal digit (ASCII) |
| `Strings.NatToDecimal` | minicron-framework/Model/CronValue.swift:52 | a non-empty digit string whose value is `n`, with no leading zero, one digit exactly below 10 |
| `Strings.CInt` | minicron-framework/Model/CronValue.swift:52-54 | the C `int` `%d` reads from a Swift `Int`: in -2^31…2^31-1, congruent to `n` modulo 2^32, and `n` itself when `n` fits |
| `Strings.CIntPeriodic` | minicron-framework/Model/CronValue.swift:52-54 | values 2^32 apart reach `%d` as the same C `int` |
| `Strings.Decimal` | minicron-framework/Model/CronValue.swift:52 | `%d`: a numeral of `n` for `0 <= n < 2^31`; in general a numeral of the low 32 bits `CInt(n)` with no leading zero, or a leading `-` when those read as negative |
| `Strings.ZeroPadded` | minicron-framework/Model/CronValue.swift:54 | `%02d`: at least two characters, exactly two when `CInt(n)` is in 0…99, denoting `n` for `0 <= n < 2^31` and `CInt(n)` whenever that is non-negative |
| `Strings.LeadingZeroIgnored` | minicron-framework/Model/CronValue.swift:34 | a leading `0` does not change the number a digit string denotes |
| `Strings.IsWhitespace` | minicron-framework/Model/CronJob.swift:20 | `CharacterSet.whitespaces`: TAB and the Unicode space separators (category Zs) |
| `Strings.Split` | minicron-framework/Model/CronJob.swift:20 | one more piece than separators in the input, and no piece holds a separator |
| `Strings.SplitRejoin` | minicron-framework/Model/CronOutput.swift:20 | the pieces are the input's own text between separators: putting its separator characters back between them, in order, gives the input |
| `Strings.ColonSplitRejoin` | minicron-framework/Model/CronTime.swift:28 | cutting at `:` and joining the pieces with `:` gives the input back |
| `Strings.SplitJoin` | minicron-framework/Model/CronTime.swift:28 | splitting separator-free pieces joined by a separator gives the pieces back |
| `CronTimes.TimeAsString` | minicron-framework/Model/CronTime.swift:47-49 | the text holds only digits, `-`, `*` and `:` |
| `CronTimes.TimeTextSplits` | minicron-framework/Model/CronTime.swift:47-49 | the text splits at `:` into exactly the hours text and the minutes text |
| `CronTimes.FromFields` | minicron-framework/Model/CronTime.swift:95-99 | keeps both fields unvalidated and stores their rendering as `rawValue`; valid fields give a valid time |
| `CronTimes.ParseTime` | minicron-framework/Model/CronTime.swift:27-43 | succeeds iff splitting at `:` gives exactly two pieces that parse as hours and minutes; fields are those parses; the result is valid with the normalised text stored |
| `CronTimes.FromInts` | minicron-framework/Model/CronTime.swift:101-105 | succeeds iff both integers are in range; the hours error comes first when both are bad |
| `CronTimes.TimeLess` | minicron-framework/Model/CronTime.swift:83-89 | the time `<`: the minutes `<` decides when the hours are field-equal, the hours `<` otherwise |
| `CronTimes.TimeEqual` | minicron-framework/Model/CronTime.swift:91-93 | the time `==`: both fields field-equal |
| `CronTimes.TimeLessReflexive` | minicron-framework/Model/CronTime.swift:83-93 | every time is `<` and `==` itself, wildcards included |
| `CronTimes.ConcreteOrder` | minicron-framework/Model/CronTime.swift:83-93 | on wildcard-free times `<` is the lexicographic `<=` and `==` compares the numbers |
| `CronTimes.TimeRoundTrip` | minicron-framework/Model/CronTime.swift:27-49 | parsing the rendering of a valid time gives the same time |
| `CronTimes.ParseTimeNormalises` | minicron-framework/Model/CronTime.swift:36 | the stored text of a parsed time parses back to the same time |
| `CronTimes.ParseTimeNormalisesExample` | minicron-framework/Model/CronTime.swift:27-43 | `"01:5"` parses to hour 1, minute 5, stored as `"1:05"` |
| `CronTimes.ParseTimeSeparatorExamples` | minicron-framework/Model/CronTime.swift:28-29 | a missing or a doubled `:` gives nil |
| `CronTimes.FromIntsExamples` | minicron-frameworkTests/CronTimeTests.swift:176-192 | hour 24 or minute 60 throws, the hours error first; `1:01` renders as such (the test at CronTimeTests.swift:73-82) |
| `CronTimes.ComparatorExamples` | minicron-frameworkTests/CronTimeTests.swift:15-69 | the comparator tests; also `*:00 < 12:00` and `12:00 < *:00` both hold, and `12:00` and `*:*` are each `<` themselves |
| `CronOutputs.FromTime` | minicron-framework/Model/CronOutput.swift:30-34 | keeps time and day unchanged; the text is the time's text, a space, then `today` or `tomorrow` |
| `CronOutputs.ParseOutput` | minicron-framework/Model/CronOutput.swift:19-28 | parses iff the first whitespace piece is a time and a second piece exists and is a day name; traps iff the time parses and there is no whitespace; keeps the text verbatim |
| `CronOutputs.OutputRoundTrip` | minicron-framework/Model/CronOutput.swift:19-34 | parsing the text of a rendered output gives back the same output |
| `CronOutputs.RenderingTodayExample` | minicron-framework/Model/CronOutput.swift:33 | hour 15, minute 30, today renders `15:30 today` |
| `CronOutputs.RenderingTomorrowExample` | minicron-framework/Model/CronOutput.swift:33 | hour 0, minute 0, tomorrow renders `0:00 tomorrow` |
| `CronOutputs.MissingDayTraps` | minicron-framework/Model/CronOutput.swift:20-22 | `"15:30"` alone reaches the unchecked `parts[1]` |
| `NextTriggers.NextTrigger` | minicron-framework/Model/CronTime.swift:54-81 | today iff job `==` current or current `<` job; the result has no wildcard; each field is the job's, the current time's or 0; tomorrow gives the job's own fields with wildcards as 0 |
| `NextTriggers.TriggerIsValid` | minicron-framework/Model/CronTime.swift:62-79 | in-range inputs give an in-range trigger |
| `NextTriggers.TriggerMatchesJob` | minicron-framework/Model/CronTime.swift:54-81 | the trigger agrees with every fixed field of the job |
| `NextTriggers.EveryMinuteJob` | minicron-framework/Model/CronTime.swift:56-76 | `*:*` fires today at the current time |
| `NextTriggers.WildcardMinuteLaterHourJob` | minicron-framework/Model/CronTime.swift:56-76 | `H:*` with `H` after the current hour fires today at `H:00` |
| `NextTriggers.FixedJob` | minicron-framework/Model/CronTime.swift:56-66 | a fully fixed job fires at its own time, today iff it is not before the current time |
| `NextTriggers.WildcardHourJob` | minicron-framework/Model/CronTime.swift:56-76 | `*:M` from `H:C` gives `H:M` today if `C <= M`, else `0:M` tomorrow |
| `NextTriggers.TodayIsEarliestFromNow` | minicron-framework/Model/CronTime.swift:54-81 | a today trigger is not before now, and is the earliest matching time not before now |
| `NextTriggers.TomorrowIsEarliestOfDay` | minicron-framework/Model/CronTime.swift:62-76 | a tomorrow trigger is the earliest matching time of the day |
| `NextTriggers.FixedHourTomorrowMissesNothing` | minicron-framework/Model/CronTime.swift:56-59 | with a fixed hour, tomorrow is chosen only when no matching time is left today |
| `NextTriggers.WildcardHourSkipsLaterToday` | minicron-framework/Model/CronTime.swift:56-76 | with a wildcard hour, tomorrow can be chosen although `(H+1):M` still matches today |
| `NextTriggers.ScenarioSameHourLater` | minicron-frameworkTests/CronTimeTests.swift:86-96 | `15:30` from `15:10` is `15:30 today` |
| `NextTriggers.ScenarioEqualIsToday` | minicron-frameworkTests/CronTimeTests.swift:162-172 | `23:59` from `23:59` is `23:59 today` |
| `NextTriggers.ScenarioEarlierHourIsTomorrow` | minicron-frameworkTests/CronTimeTests.swift:128-136 | `14:30` from `15:10` is `14:30 tomorrow` |
| `NextTriggers.ScenarioMidnightIsTomorrow` | minicron-frameworkTests/CronTimeTests.swift:150-160 | `0:00` from `23:59` is `0:00 tomorrow` |
| `NextTriggers.ScenarioWildcardHourToday` | minicron-frameworkTests/CronTimeTests.swift:98-106 | `*:30` from `15:10` is `15:30 today` |
| `NextTriggers.ScenarioWildcardHourTomorrow` | minicron-frameworkTests/CronTimeTests.swift:138-148 | `*:15` from `23:30` is `0:15 tomorrow` |
| `NextTriggers.ScenarioEveryMinute` | minicron-frameworkTests/CronTimeTests.swift:108-116 | `*:*` from `15:10` is `15:10 today` |
| `NextTriggers.ScenarioWildcardMinuteLaterHour` | minicron-frameworkTests/CronTimeTests.swift:235-245 | `19:*` from `16:10` is `19:00 today` |
| `CronJobs.ParseJob` | minicron-framework/Model/CronJob.swift:19-31 | fails with `invalidParametersCount(n)` iff the line does not split into exactly 3 pieces; tokens are minute, hour, task; the hours error wins; field errors pass unchanged; on success the fields are the parses and the task is the third piece verbatim |
| `CronJobs.SplitThreeTokens` | minicron-framework/Model/CronJob.swift:20-26 | three whitespace-free tokens joined by single spaces split back into them |
| `CronJobs.JobLineRoundTrip` | minicron-framework/Model/CronJob.swift:19-31 | writing a valid job as `minute hour task` and parsing it gives the same job |
| `CronJobs.HoursErrorWins` | minicron-framework/Model/CronJob.swift:27-28 | with both fields bad, the hours error is reported |
| `CronJobs.DoubledSpaceFails` | minicron-framework/Model/CronJob.swift:20-23 | a doubled space gives four pieces and the count error |
| `CronJobs.DailyJobExample` | minicron-framework/Model/CronJob.swift:19-31 | `30 1 backup` is the job at `1:30` running `backup` |

## Left out

- Standard input, the `jobs` array, printing, `exit(1)` and the ` - task` suffix of each printed line (minicron/main.swift): I/O glue around the core.
- Reading the command line (minicron/ArgumentParser.swift): process I/O.
- Converting the system clock to a time (minicron-framework/Utils/Date+cronTime.swift): the clock is left out, and a current time is a parameter of `NextTrigger`.
- minicron-framework/Model/ConfigValue.swift and minicron-framework/Model/Config.swift: earlier drafts that no working code uses.
- `CronTime(argString:)`, which `CronOutput(rawValue:)` calls, is not part of this model. `ParseOutput` reads the time token with the `H:MM` parser of `init?(rawValue:)` instead.
- `CharacterSet.decimalDigits` also holds non-ASCII Unicode digits, which `Int(String)` rejects, so `?? 0` turns them into 0. The model treats only ASCII `0`–`9` as digits.
- `String(format:)` locale effects are not modelled. Rendering is plain decimal.
- Swift's `Int` is 64-bit. The model's integers are unbounded, except where `Int(String)` overflows (`ReadInt`) and where `%d`/`%02d` read only the low 32 bits (`CInt`).
- `Equatable` on `CronOutput` is not modelled. The scenario lemmas compare the rendered `rawValue` instead.
- Swift's derived `>`, `<=` and `>=` are not modelled. Only `max` is used by the core, and `CronValues.Max` defines it from the field `<`.
- The settable `rawValue` of `CronTime` and `CronOutput` is modelled as a stored field that never changes after construction. Nothing in the core assigns it.
