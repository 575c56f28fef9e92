# TechClub LeetCode contest — a verified model of its core

The contest site lets participants open a problem (which starts an
anti-cheat timer) and mark it solved (which stops it). The server keeps one
progress row per participant and problem, and a table of audit entries
explaining why a row was flagged. The browser groups the problem list by
week, keeps per-problem checkboxes, counts totals per difficulty, shows a
"Registration ends in" banner, and checks the address typed into the
forgot-password form. The banner always counts down seven days from the
moment it appears: the home page passes it a `targetDateISO` property,
which the banner does not read (`client/src/pages/home.jsx:18`,
`client/src/components/CountdownBanner.jsx:8-9`).

The project models that core:

- `Progress` (`progress.dfy`): the two tables, the `start` and `finish`
  handlers and the solved-ids query. The tables live in the class
  `ProgressService`, whose methods change the two maps step by step as the
  handlers do. Each method is proved equal to a step function on table
  values (`StartStep`, `FinishStep`). Timestamps are integer milliseconds.
  The clock is a `now` parameter. Database failures are a `Faults`
  parameter.
- `ProgressProperties` and `ProgressTraces`: what one call guarantees, and
  what holds over any sequence of calls. A start time is never overwritten.
  Flags are sticky. A solved row never changes again. Rows stay well formed.
  When no audit write fails, every flagged row has its audit entry.
- `Helper`: `secondsBetween`, and the duplicate `calcDuration`, as integer
  rounding.
- `AdminProblems`: the required-field check of the add-problem endpoint.
- `StableSort`: `Array.prototype.sort` with a numeric comparator, written
  as a stable insertion sort. It is proved sorted, a permutation, stable
  (equal keys keep their order), strict when keys are distinct, and
  sum-preserving.
- `ProblemList` and `ProblemListProperties`: `groupProblemsByWeek` (an
  imperative method over a map, proved equal to a function), `toggleProblem`,
  the difficulty tallies (an imperative method with six counters) and the
  percentage clamp of `Bar`.
- `Countdown`: the banner's deadline, `calcTimeLeft` and the zero padding
  of each block.
- `ForgotPassword`: the email pattern with JavaScript's `\s`, `trim`, and
  the choice between the two error messages and a reset request.
- `Wrappers` and `Decimal`: `Option`, and decimal rendering (`String(n)`,
  `padStart`) with its read-back lemmas.

Some behaviour of the code that the model keeps as written:

- A finish on an unsolved row with no start time sets `flagged_at` to the
  finish time, even when the row was already flagged, so an earlier flag
  time is moved (`server/index.js:287-291`).
- `finish` with `solved: false` stores `solved = false` and no `solved_at`
  (`server/index.js:224-225`, `303-311`).
- The two missing-start audit reasons are different strings. One is used
  when no row exists and one when the row exists without a start.
- The banner reads the clock twice, once for the deadline and once for the
  first time left (`client/src/components/CountdownBanner.jsx:9`, `:64`).
  It shows exactly seven days only when both reads give the same
  millisecond; a millisecond later it shows 6 days, 23:59:59.

## Model

| member | source | states |
|---|---|---|
| Helper.SecondsBetween | server/helper.js:8-12 | none exactly when either time is absent; never negative; 0 when the end is not after the start |
| Helper.SecondsBetweenIsNearest | server/helper.js:10-11 | for an end after the start, the result is the whole number of seconds nearest the difference (halves round up) |
| Helper.SecondsBetweenWholeSeconds | server/helper.js:10-11 | for times a whole number of seconds apart, the result is that number of seconds |
| Helper.SecondsBetweenMonotonic | server/helper.js:10-11 | for a fixed start, a later end never gives fewer seconds |
| Helper.SecondsBetweenSixtyFive | server/helper.js:10-11 | a finish 65 s after the start gives 65 |
| Progress.CalcDuration | server/index.js:199-205 | the handler's own duration computation is the same function as `secondsBetween` |
| Progress.StartStep | server/index.js:113-168 | a start never touches the audit table; when it changes the progress table, both ids were given, the row was missing, exactly that row is added, started now, and the answer is `time_started` with that time; every successful answer names an existing row and reports its start time |
| Progress.FinishStep | server/index.js:171-356 | a failed finish changes nothing; no row is ever removed; only the request's own row and audit entry can change or appear, and only when both ids were given; a solved row is never changed |
| Progress.DecideSolve | server/index.js:280-300 | the new row keeps the start time, ends now, is solved and solved now exactly as asked, and has a non-negative duration exactly when it was started; it is flagged exactly when it was flagged already or a new reason arose; a new reason moves the flag time to now, otherwise the flag time is kept; a missing start always gives the missing-start reason |
| Progress.StartStepKeepsTablesOk | server/index.js:113-168 | a start keeps every row well formed and audit entries only for existing rows |
| Progress.FinishStepKeepsTablesOk | server/index.js:171-356 | a finish keeps every row well formed: flagged iff it has a flag time, unstarted rows flagged, durations never negative, solved rows carry their solve time |
| Progress.ProgressService.Start | server/index.js:113-168 | the method's new tables and response are those of the start step on the old tables |
| Progress.ProgressService.Finish | server/index.js:171-356 | the method's new tables and response are those of the finish step on the old tables, with the flag variables reassigned across the branches |
| Progress.ProgressService.SolvedProblemIds | server/index.js:377-400 | 400 without a user id, 500 when the read fails, otherwise a duplicate-free list of exactly that user's solved problem ids |
| ProgressProperties.MissingIdsRejected | server/index.js:116-119 | a start or finish without a user id or problem id answers 400 with the required-ids error and changes nothing |
| ProgressProperties.StoreFailuresChangeNothing | server/index.js:113-356 | a failing read, insert or update leaves both tables unchanged and, when both ids are given, answers 500 with the fetch error for a failing read, the create error for a failing insert of a missing row, and the update error for a failing update of an unsolved row |
| ProgressProperties.StartInsertsRow | server/index.js:145-162 | the first start inserts exactly one row started now, unsolved and unflagged, and answers `time_started` with that time |
| ProgressProperties.StartOnExistingRow | server/index.js:136-143 | a start on an existing row, solved or not, changes nothing and answers `already_started` with the row's start time |
| ProgressProperties.RepeatedStartKeepsStartTime | server/index.js:136-162 | a second start, however much later, reports the first start's time |
| ProgressProperties.FinishWithoutRow | server/index.js:208-267 | a finish without a row inserts a flagged, unstarted row ending now, solved now iff solved, and records the missing-start reason |
| ProgressProperties.AuditFailureKeepsResponse | server/index.js:242-260 | a failing audit write changes neither the response nor the progress table |
| ProgressProperties.FinishOnSolvedRow | server/index.js:270-277 | a finish on a solved row changes nothing and answers `already_solved_no_change` with the row |
| ProgressProperties.FinishIdempotentAfterSolve | server/index.js:270-277 | after a finish that solved the problem, any later finish changes nothing |
| ProgressProperties.FinishUpdatesRow | server/index.js:280-316 | a finish on an unsolved row keeps its key and start time and sets end time, duration, solved state and solve time |
| ProgressProperties.FinishFlagsMissingStart | server/index.js:287-291 | an unsolved row without a start is flagged at the finish time with the missing-start reason |
| ProgressProperties.FinishFlagsShortDuration | server/index.js:292-300 | a started, unflagged row finished under the threshold is flagged now with the duration reason |
| ProgressProperties.FinishLongDurationNotFlagged | server/index.js:292-300 | a started, unflagged row finished at or over the threshold stays unflagged and gets no audit entry |
| ProgressProperties.FinishKeepsEarlierFlag | server/index.js:283-285 | a started row that is already flagged keeps its flag and flag time and gets no new audit entry |
| ProgressProperties.AuditIffFlagReason | server/index.js:302-343 | on a first solve a flag reason arises exactly when the row has no start or is unflagged and under the threshold; a reason flags the row with the flag time set to now, and without one the flag and flag time are kept (the finish-case lemmas state that the audit entry is written exactly then) |
| ProgressProperties.ThresholdExampleFlagged | server/index.js:292-299 | with the default 600 s threshold, a solve after 300 s is flagged with the reason "duration 300s < threshold 600s" |
| ProgressProperties.ThresholdExampleNotFlagged | server/index.js:292-299 | with the default threshold, a solve after 900 s is not flagged |
| ProgressProperties.EndToEndScenario | server/index.js:113-356 | start then finish on empty tables gives one solved row with its duration; a second finish changes nothing |
| ProgressTraces.ApplyKeepsRows | server/index.js:136-143 | one request keeps an existing row's start time, keeps a flag once set, and leaves a solved row unchanged |
| ProgressTraces.RunKeepsRows | server/index.js:136-143 | the same holds across any sequence of starts and finishes |
| ProgressTraces.RunKeepsTablesOk | server/index.js:171-356 | any sequence of requests keeps every row well formed |
| ProgressTraces.ApplyKeepsAuditComplete | server/index.js:242-260 | a request whose audit write succeeds keeps every flagged row matched by an audit entry with its flag time |
| ProgressTraces.RunKeepsAuditComplete | server/index.js:325-343 | across any sequence of requests whose audit writes succeed, every flagged row keeps a matching audit entry |
| ProgressTraces.RunFromEmptyTables | server/index.js:113-356 | starting from no rows, where every row is created by a start or a finish, any sequence of requests whose audit writes succeed leaves every row well formed and every flagged row with its audit entry |
| AdminProblems.ValidateAddProblem | server/index.js:34-40 | accepted exactly when title, difficulty and link are all truthy, with the fields passed through; otherwise 400 with the required-fields error |
| StableSort.SortBySorted | client/src/components/problemscomponent.jsx:395 | in the sorted sequence every element's key is at most the key of every later element |
| StableSort.SortByPermutation | client/src/components/problemscomponent.jsx:395 | the sort is a permutation of its input |
| StableSort.SortByStable | client/src/components/problemscomponent.jsx:401 | elements with equal keys keep their input order |
| StableSort.SortByStrict | client/src/components/problemscomponent.jsx:395 | with distinct keys the sorted keys strictly ascend |
| StableSort.SortBySumOf | client/src/components/problemscomponent.jsx:395 | sorting keeps the sum of any measure of the elements |
| ProblemList.FillByWeek | client/src/components/problemscomponent.jsx:363-391 | the loop's key order is the input's distinct weeks in order of first appearance, and each week's bucket holds its title and the normalised entries of exactly its problems, in input order |
| ProblemList.GroupProblemsByWeek | client/src/components/problemscomponent.jsx:361-404 | the map-filling loop and the two sorts produce exactly the grouping function's result |
| ProblemListProperties.WeeksInOrderSpec | client/src/components/problemscomponent.jsx:364-373 | the map's weeks are distinct and are exactly the input's weeks, missing weeks read as 0 |
| ProblemListProperties.EntriesOfWeekSpec | client/src/components/problemscomponent.jsx:376-391 | an entry is in a week's list exactly when a problem of that week normalises to it |
| ProblemListProperties.GroupsOnePerWeek | client/src/components/problemscomponent.jsx:367-395 | one group per distinct input week, in strictly ascending week order |
| ProblemListProperties.SortedBucketsAreBuckets | client/src/components/problemscomponent.jsx:395 | each sorted bucket is the bucket of its own week |
| ProblemListProperties.GroupContents | client/src/components/problemscomponent.jsx:398-403 | title names the week; count, problems and checkboxes agree in number, all unchecked; problems are the week's entries sorted by position, a permutation that keeps input order among equal positions |
| ProblemListProperties.EveryProblemInItsWeek | client/src/components/problemscomponent.jsx:364-392 | every problem lands in a group of its own week, and no two groups share a week |
| ProblemListProperties.GroupHoldsOnlyItsWeek | client/src/components/problemscomponent.jsx:385-391 | a group holds only normalised problems of its week |
| ProblemListProperties.GroupCountsSum | client/src/components/problemscomponent.jsx:398-400 | the groups' counts add up to the number of input problems |
| ProblemListProperties.WeekTitleReadsBack | client/src/components/problemscomponent.jsx:370 | "Unassigned Week" exactly for week 0; otherwise "Week " followed by decimal digits that read back as the week, after a minus sign when it is negative, with no leading zero |
| ProblemListProperties.WeekTitleInjective | client/src/components/problemscomponent.jsx:370 | distinct weeks get distinct titles, "Unassigned Week" only for week 0 |
| ProblemListProperties.NormalizeDifficultySpec | client/src/components/problemscomponent.jsx:376-383 | easy, medium and hard are capitalised, any other value is kept, and normalising is idempotent; a changed value only had its lower-case first letter made upper-case |
| ProblemList.FlipAt | client/src/components/problemscomponent.jsx:447-448 | an in-range index flips exactly that entry; past the end the array grows with holes read as false and a true |
| ProblemList.ToggleProblem | client/src/components/problemscomponent.jsx:443-452 | only the chosen week changes, and in it only the checkbox array, flipped at the index |
| ProblemListProperties.ToggleTwiceRestores | client/src/components/problemscomponent.jsx:443-452 | toggling the same in-range checkbox twice restores the weeks |
| ProblemList.ComputeTallies | client/src/components/problemscomponent.jsx:455-477 | the nested loops' six counters equal the per-difficulty counts of all problems and of the checked ones; the three totals add up to the number of problems, and no solved count exceeds its total |
| ProblemList.TalliesPartition | client/src/components/problemscomponent.jsx:464-476 | every problem counts under exactly one difficulty, anything else than Easy or Medium as Hard, so the totals sum to the number of problems |
| ProblemList.SolvedAtMostTotal | client/src/components/problemscomponent.jsx:468-472 | each difficulty's solved count is at most its total |
| ProblemListProperties.FreshGroupsTallies | client/src/components/problemscomponent.jsx:455-477 | for freshly grouped problems the totals add up to the input length and nothing is solved |
| ProblemList.BarPercent | client/src/components/problemscomponent.jsx:41-45 | always within 0 to 100; 0 for a non-finite value; the nearest whole percent inside the range; clamped outside it |
| ProblemListProperties.BarMonotonic | client/src/components/problemscomponent.jsx:41-45 | a larger percentage never draws a shorter bar |
| Countdown.Target | client/src/components/CountdownBanner.jsx:9 | the deadline is never before the banner appears, and read at that same millisecond the time left is exactly the given whole days with zero hours, minutes and seconds |
| Countdown.CalcTimeLeft | client/src/components/CountdownBanner.jsx:63-71 | days never negative; hours below 24, minutes and seconds below 60 |
| Countdown.TimeLeftRecomposes | client/src/components/CountdownBanner.jsx:65-69 | days, hours, minutes and seconds put together are the whole seconds left, clamped at zero |
| Countdown.ZeroIffUnderASecond | client/src/components/CountdownBanner.jsx:65 | all four parts are zero exactly when less than a second remains, in particular once the deadline has passed |
| Countdown.FirstReadLaterShowsLess | client/src/components/CountdownBanner.jsx:9-71 | when the first time left is read up to a second after the deadline was computed, it shows one day less and 23:59:59 |
| Countdown.HomeBannerShowsSevenDays | client/src/components/CountdownBanner.jsx:8-10 | the banner as the home page mounts it counts down seven days: 7 days when both clock reads agree, 6 days 23:59:59 a millisecond later |
| Countdown.TickTakesOneSecond | client/src/components/CountdownBanner.jsx:13-71 | one second later the time left is one second less, while at least a second remains |
| Countdown.TimeBlockText | client/src/components/CountdownBanner.jsx:51 | at least two characters, all decimal digits |
| Countdown.TimeBlockValue | client/src/components/CountdownBanner.jsx:51 | the padded text reads back as the value clamped at zero; it is exactly two digits below 100, a '0' followed by the digit below 10, and the plain decimal digits of the value from 10 on |
| Countdown.TimeBlockExamples | client/src/components/CountdownBanner.jsx:51 | 5 shows as "05", -3 as "00", 123 as "123" |
| Decimal.NatToString | client/src/components/CountdownBanner.jsx:51 | `String(n)` for a non-negative number: at least one character, all decimal digits, and no leading zero ("0" alone for zero) |
| Decimal.ValueOfNatToString | client/src/components/CountdownBanner.jsx:51 | the decimal digits of a number read back as that number |
| Decimal.LeadingZerosValue | client/src/components/CountdownBanner.jsx:51 | leading zeros do not change the value |
| Decimal.PadStart | client/src/components/CountdownBanner.jsx:51 | the padded string keeps the original as its suffix, filled before it up to the width |
| Decimal.IntToString | client/src/components/problemscomponent.jsx:370 | at least one character, a leading '-' exactly for a negative number, the digits read back as the number or its absolute value, and no leading zero ("0" alone for zero) |
| Decimal.IntToStringInjective | client/src/components/problemscomponent.jsx:370 | distinct integers print differently |
| ForgotPassword.ValidateEmail | client/src/pages/ForgotPasswordPage.jsx:15 | an accepted email has at least five characters, and its first and last characters are neither white space nor '@' |
| ForgotPassword.AcceptedHasShape | client/src/pages/ForgotPasswordPage.jsx:15 | an accepted email has no white space, exactly one '@' with something before it, and a '.' strictly inside the part after it |
| ForgotPassword.ShapeIsAccepted | client/src/pages/ForgotPasswordPage.jsx:15 | every string of that shape is accepted |
| ForgotPassword.ValidateEmailIffShape | client/src/pages/ForgotPasswordPage.jsx:15 | the pattern accepts exactly the strings of that shape |
| ForgotPassword.TrimIsSlice | client/src/pages/ForgotPasswordPage.jsx:23 | what trimming keeps is a contiguous slice of the input with only white space before and after it and none at either of its own ends |
| ForgotPassword.TrimEmptyIffBlank | client/src/pages/ForgotPasswordPage.jsx:23 | trimming leaves nothing exactly when the string is all white space |
| ForgotPassword.TrimStart | client/src/pages/ForgotPasswordPage.jsx:23 | drops exactly the leading white space |
| ForgotPassword.TrimEnd | client/src/pages/ForgotPasswordPage.jsx:23 | drops exactly the trailing white space |
| ForgotPassword.Submit | client/src/pages/ForgotPasswordPage.jsx:22-30 | a blank email gives "Email is required.", a non-blank one the pattern rejects gives "Enter a valid email address.", and a reset is requested, for the untrimmed email, exactly when the pattern accepts |
| ForgotPassword.PaddedEmailRejected | client/src/pages/ForgotPasswordPage.jsx:15-24 | white space at either end is not trimmed before the pattern check, so such an email is rejected |
| ForgotPassword.SubmitAcceptsExample | client/src/pages/ForgotPasswordPage.jsx:22-30 | "a@b.co" is sent on as a reset request |
| ForgotPassword.SubmitRequiredExample | client/src/pages/ForgotPasswordPage.jsx:23 | two spaces give "Email is required." |
| ForgotPassword.SubmitInvalidExample | client/src/pages/ForgotPasswordPage.jsx:24 | "a@b" gives "Enter a valid email address." |

## Left out

- The leaderboard: it comes from a database procedure whose ordering is not part of this model.
- Payments: order creation is a call into a payment SDK, and signature checking is HMAC-SHA256.
- Races: the handlers read, branch and then write without atomicity. Here they are sequential operations.
- Authentication, paid-access gating, navigation, rendering, animations and `fetch` calls: these are browser and foreign-library code.
- The clock: `Date.now()` and `nowISO()` become an integer `now`, and ISO-8601 formatting is not modelled. The countdown banner's two reads of `Date.now()` (`client/src/components/CountdownBanner.jsx:9`, `:64`) are two parameters, `shownAt` for the deadline and `now` for the time left; FirstReadLaterShowsLess covers them differing.
- Logging: the `console.error` calls after a failing audit write (`server/index.js:257-259`, `340-342`) are not modelled; the write's failure is, through `Faults`.
- The `created_at` and `updated_at` columns are not modelled.
- A thrown exception inside a handler (the generic 500 "Server error" path) is not modelled. Database errors that the handlers check are modelled through `Faults`.
- The threshold is a positive integer. The environment variable that overrides it is not read.
- Progress.CalcDuration and Helper.SecondsBetween: timestamps are integer milliseconds, and `Math.round(ms / 1000)` is exact integer rounding rather than floating point.
- Countdown.CalcTimeLeft: `Math.floor((diff / 1000) % 60)` and its siblings are written as integer division and remainder. For a non-negative whole number of milliseconds they coincide with the floating-point form.
- Countdown.Target: the `days` property is taken as a whole number of days.
- ProblemList.BarPercent: percentages are exact reals, not floating point.
- ProblemList.ToggleProblem: a negative index sets a non-index property on the copy of the array in JavaScript. The model leaves the array unchanged, which is what the tallies and the rendering read.
- ProblemList.GroupProblemsByWeek: weeks and positions are integers, and a `null` or missing week or position reads as 0. Non-numeric values are not modelled.
- StableSort.SortBySorted: the sort is stable insertion sort. The engine's sort algorithm is not modelled, only its result, which stability makes unique.
- Progress.ProgressService.Finish: the `already_solved_no_change` response carries the stored row. The handler's read (`server/index.js:184-186`) selects every column except `solved_at`, so the real response has no solve time in it.
- ForgotPassword.Submit: the email input is `type="email"` and `required` (`client/src/pages/ForgotPasswordPage.jsx:72-74`). The browser's own value cleaning (stripping leading and trailing white space) and its built-in form validation, which stops a blank or malformed submission before `handleSubmit` runs, are not modelled. `Submit` models `handleSubmit` on whatever value reaches it, so PaddedEmailRejected and SubmitRequiredExample describe values a browser would normally not pass on.
- Progress.ProgressService.Start, Progress.ProgressService.Finish and AdminProblems.ValidateAddProblem: ids and other request fields are strings, so only an absent field or the empty string counts as missing; a JSON `0`, `false` or `null`, which `!field` also rejects, is not expressible.
- Progress.ProgressService.Finish: `solved` is either omitted (read as `true`, the destructuring default) or a boolean. A JSON `null`, which keeps the default from applying and is stored as a falsy `solved` with no `solved_at`, and non-boolean values are not modelled.
- ForgotPassword: strings are sequences of Unicode scalar values, while JavaScript works on UTF-16 code units. The reset-password call itself is not modelled, only the request the form would send.
