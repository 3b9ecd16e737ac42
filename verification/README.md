# Mood tracker: a Dafny model of the analytics pipeline and the UI state logic

This project models the logic of a small React mood-tracking app:

- the mood table and the logger form;
- the application's list operations (logging a mood, adding, updating and
  deleting journal entries);
- the journal view's editor guard, preview truncation, expand/collapse state
  and newest-first listing;
- the analytics pipeline: the time-range filter, the per-day series behind
  the line and bar charts, the label distribution behind the pie chart, the
  summary statistics and the emoji lookup;
- the guided breathing exercise: its countdown state machine, the
  12-second inhale/hold/exhale cycle, the circle style, the instruction text
  and the `m:ss` clock.

Modelling choices:

- React state becomes immutable datatypes, and each handler becomes a pure
  function from the old state to the new one.
- Timestamps are integers in milliseconds.
- The wall clock (`Date.now()`, `new Date()`) becomes the `id` and `now`
  parameters.
- The local calendar that `date-fns` `format` consults becomes a parameter
  `cal`, which maps a timestamp to its calendar date.
- Averages are kept exactly, as integer tenths.
- Emojis are opaque tokens.
- Timers become explicit events: `SecondElapsed` is one firing of every
  countdown interval that is still running.

Modules:

| module | file | what it holds |
|---|---|---|
| `Basics` | basics.dfy | `Option`, sums, extremes, `filter` and subsequences |
| `Text` | text.dfy | `trim`, decimal rendering, digit parsing, `padStart` |
| `Grouping` | grouping.dfy | the object-accumulator `reduce` that buckets keyed values |
| `Sorting` | sorting.dfy | a stable insertion sort by an integer rank |
| `Moods` | moods.dfy | the six-mood table and the logger form |
| `App` | app.dfy | the app-level list operations |
| `Analytics` | analytics.dfy | the analytics pipeline |
| `Journal` | journal.dfy | the journal view |
| `Breathing` | breathing.dfy | the breathing exercise |

The day-series comparator parses each `'MMM d'` label as a date in 2024. It
therefore orders points by month and day only. Points from different years
that share a month and day are merged into one point, and a series that
crosses a new year is out of calendar order. The model follows the code
here, not calendar order. `Analytics.SameDayOfDifferentYearsMerge` and
`Analytics.YearBoundaryMisorder` state both consequences.

The handlers and derived values themselves are the functions `Analytics.FilterByRange`,
`Analytics.DailySeries`, `Analytics.Distribution`, `Analytics.Summary`, `Analytics.MoodEmoji`,
`Journal.GetPreview`, `Journal.Submit`, `Journal.ToggleEntry`, `Journal.NewestFirst`,
`Moods.Submit`, `Breathing.Step` (with `Start`, `Stop`, `Reset`, `SelectDuration`,
`ChangeAfterComplete` and `Tick`), `Breathing.PhaseAt`, `Breathing.StyleOf`,
`Breathing.Instruction` and `Breathing.FormatTime`; the rows below name the members
whose contracts state what they promise.

## Model

| member | source | states |
|---|---|---|
| `Moods.TableShape` | src/components/MoodLogger.js:12-19 | the table has six moods with ids and values 1..6 in order, and their labels are pairwise distinct |
| `Moods.Submit` | src/components/MoodLogger.js:21-30 | a mood is reported exactly when one is selected; the report carries the selection and the notes; a successful submit clears both and shows the banner; otherwise the form is unchanged |
| `Moods.SubmitEnabledIffReported` | src/components/MoodLogger.js:95-99 | the submit button is enabled exactly when submitting reports a mood, and is disabled again after a submit |
| `Moods.BreathingPromptExceptEcstatic` | src/components/MoodLogger.js:66-67 | after selecting a table mood, the "Pause & Breathe" prompt shows exactly when that mood is not Ecstatic |
| `App.AddMoodEntry` | src/App.js:46-54 | the new sample, stamped with the given id and time, is appended after the unchanged old samples |
| `App.AddJournalEntry` | src/App.js:56-65 | the new entry, stamped with the given id and time, is appended after the unchanged old entries |
| `App.PatchLaws` | src/App.js:69 | spreading an empty update changes nothing, and spreading the same update twice equals spreading it once |
| `App.UpdateJournalEntry` | src/App.js:67-71 | the length is kept; entries with another id are unchanged; every entry with the id gets the update merged in |
| `App.UpdateIdempotent` | src/App.js:67-71 | repeating an update changes nothing further, even when the update rewrites the id |
| `App.DeleteJournalEntry` | src/App.js:73-75 | no entry with the id survives; the survivors keep their order; every entry with another id keeps its multiplicity |
| `App.DeleteAbsent` | src/App.js:73-75 | deleting an id that no entry has leaves the list unchanged |
| `App.DeleteIdempotent` | src/App.js:73-75 | deleting twice equals deleting once |
| `App.DeleteUndoesAdd` | src/App.js:56-75 | adding an entry under a fresh id and then deleting that id restores the list |
| `Basics.FilterSpec` | src/App.js:74 | `filter` keeps the order and keeps each element the predicate accepts, with its multiplicity, and nothing else |
| `Basics.FilterAppend` | src/App.js:74 | filtering a concatenation is the concatenation of the filtered parts |
| `Basics.Max` | src/components/Analytics.js:99 | `Math.max` of a non-empty list is one of its elements and no element exceeds it |
| `Basics.Min` | src/components/Analytics.js:100 | `Math.min` of a non-empty list is one of its elements and no element is below it |
| `Text.PadStart` | src/components/BreathingMeditation.js:82 | `padStart` reaches the width (or keeps a longer string), ends with the original string, and fills only in front with the fill character |
| `Text.TrimEmptyIffBlank` | src/components/Journal.js:13 | `trim()` gives the empty string exactly when every character is ECMAScript white space or a line terminator |
| `Text.NatToString` | src/components/BreathingMeditation.js:82 | the decimal rendering of a non-negative number is a non-empty string of digits with no leading zero |
| `Text.ParseNatToString` | src/components/BreathingMeditation.js:82 | reading the decimal rendering of a non-negative number back gives that number |
| `Text.ParseLeadingZeros` | src/components/BreathingMeditation.js:82 | zeros padded in front of a digit string do not change the number it reads as |
| `Grouping.GroupByWellFormed` | src/components/Analytics.js:52-61 | the accumulator holds one group per key, and each group's count and total agree with its values |
| `Grouping.GroupByContents` | src/components/Analytics.js:52-61 | each group holds exactly the values filed under its key, in input order |
| `Grouping.GroupByKeys` | src/components/Analytics.js:52-61 | the groups' keys are exactly the keys that occur in the input |
| `Grouping.GroupByTotalCount` | src/components/Analytics.js:52-61 | the group counts add up to the number of input items |
| `Grouping.GroupByFirstOccurrenceOrder` | src/components/Analytics.js:63 | `Object.values` lists the groups in the order their keys first occur |
| `Sorting.SortBySpec` | src/components/Journal.js:122-123 | the sort is a permutation and its result is ordered by rank |
| `Sorting.SortByStable` | src/components/Journal.js:122-123 | elements of equal rank keep their relative order |
| `Sorting.SortBySorted` | src/components/Journal.js:122-123 | an input already ordered by rank comes back unchanged |
| `Sorting.SortByKeeps` | src/components/Analytics.js:66 | a property held by every element before sorting is held by every element after it |
| `Analytics.FilterByRangeSpec` | src/components/Analytics.js:23-46 | the filtered view is a subsequence of the data; `all` and unknown ranges keep everything; a week, month or year keeps exactly the samples in the closed window `[now - n days, now]`, each with its multiplicity |
| `Analytics.FilterByRangeIdempotent` | src/components/Analytics.js:23-46 | filtering the filtered view again with the same range and clock gives the same view |
| `Analytics.JustLoggedIsVisible` | src/components/Analytics.js:23-46 | a sample logged at `now` is in the filtered view for every range |
| `Analytics.WeekWindowEdges` | src/components/Analytics.js:43-45 | a sample exactly seven days old is kept by the week view, and one a millisecond older is dropped |
| `Analytics.SortKeyOrder` | src/components/Analytics.js:66 | the sort key orders month/day labels exactly as the 2024 calendar does, and tells distinct labels apart |
| `Analytics.RoundTenths` | src/components/Analytics.js:65 | the result is the mean `total / count` rounded half up to tenths |
| `Analytics.MeanWithin` | src/components/Analytics.js:65 | the rounded mean lies between ten times the smallest and ten times the largest value |
| `Analytics.RoundingExamples` | src/components/Analytics.js:65 | the rounding is half up: 1.5 gives 15 tenths, 4/3 gives 13 and 2.25 gives 23 |
| `Analytics.DailySeriesAscending` | src/components/Analytics.js:48-67 | the series is strictly ascending by month and day, so there is at most one point per label |
| `Analytics.DailySeriesContents` | src/components/Analytics.js:48-67 | each point holds exactly the values logged on its month/day, in input order; its count and total agree with them; its average is their mean in tenths, rounded half up and within ten times their extremes |
| `Analytics.DailySeriesDays` | src/components/Analytics.js:48-67 | a label has a point exactly when some sample falls on that month and day |
| `Analytics.DailySeriesCounts` | src/components/Analytics.js:52-61 | the point counts add up to the number of samples |
| `Analytics.YearIgnored` | src/components/Analytics.js:53 | two calendars that agree on month and day give the same series |
| `Analytics.SameDayOfDifferentYearsMerge` | src/components/Analytics.js:53-61 | two samples on the same month and day of different years share one point |
| `Analytics.YearBoundaryMisorder` | src/components/Analytics.js:66 | 31 December 2023 is listed after 1 January 2024 |
| `Analytics.ColoursMatchTable` | src/components/Analytics.js:78-90 | each table label has the table's colour, the colour map holds only table labels, and any other label gets the fallback grey |
| `Analytics.DistributionSpec` | src/components/Analytics.js:69-92 | each label appears on at most one slice; a slice's value is the number of samples with its label, at least one; its colour is that label's colour |
| `Analytics.DistributionLabels` | src/components/Analytics.js:69-92 | a label has a slice exactly when some sample carries it |
| `Analytics.DistributionOrder` | src/components/Analytics.js:72-91 | slices are listed in the order their labels first occur in the data |
| `Analytics.DistributionTotal` | src/components/Analytics.js:69-92 | the slice values add up to the number of samples |
| `Analytics.Summary` | src/components/Analytics.js:94-104 | there are no statistics exactly when there are no samples, and `total` is the number of samples |
| `Analytics.SummaryExtremes` | src/components/Analytics.js:99-100 | `highest` and `lowest` are values some sample has, and bound every sample's value |
| `Analytics.SummaryAverage` | src/components/Analytics.js:97-103 | the average is the mean value rounded half up to tenths, and lies between ten times `lowest` and ten times `highest` |
| `Analytics.MoodEmojiAgreesWithTable` | src/components/Analytics.js:106-116 | the lookup gives each table value its mood's emoji, and the neutral face to any value outside 1..6 |
| `Analytics.AverageEmojiInRange` | src/components/Analytics.js:282 | when all values come from the table, the average card shows the emoji of a table mood between `lowest` and `highest` |
| `Analytics.EmptyPipeline` | src/components/Analytics.js:23-104 | without samples there are no points, no slices and no statistics |
| `Analytics.PipelineCountsAgree` | src/components/Analytics.js:48-104 | over one filtered view the points, the slices and the statistics count the same number of samples |
| `Journal.GetPreview` | src/components/Journal.js:33-36 | content that fits is shown whole; longer content shows its first `maxLength` characters followed by `...` |
| `Journal.PreviewShape` | src/components/Journal.js:33-36 | the preview is at most `maxLength + 3` long, starts with a prefix of the content, and is longer than `maxLength` exactly when it was cut |
| `Journal.ReadMoreIffCut` | src/components/Journal.js:148-157 | "Read more" appears exactly when the 150-character preview was cut; otherwise the preview is the whole content |
| `Journal.Open` | src/components/Journal.js:48 | opening the editor keeps whatever was typed before |
| `Journal.Submit` | src/components/Journal.js:11-19 | an entry is reported exactly when neither title nor content is blank; it carries the fields untrimmed, and the editor is closed and cleared; otherwise nothing changes |
| `Journal.SaveDisabledIffRejected` | src/components/Journal.js:100-104 | Save is disabled exactly when submitting would be rejected, that is, when the title or the content is blank |
| `Journal.Cancel` | src/components/Journal.js:89-95 | Cancel closes the editor and clears both fields |
| `Journal.SaveThenAdd` | src/components/Journal.js:14 | a successful save leaves the editor as Cancel does, and the app appends an entry with the typed fields and no name |
| `Journal.ToggleEntry` | src/components/Journal.js:21-23 | the entry becomes the expanded one exactly when it was not; otherwise nothing is expanded |
| `Journal.ToggleTwice` | src/components/Journal.js:21-23 | toggling the same entry twice restores its state and leaves no other entry expanded |
| `Journal.NewestFirstSpec` | src/components/Journal.js:122-123 | the list shows every entry exactly once, newest first |
| `Journal.NewestFirstStable` | src/components/Journal.js:122-123 | entries with the same timestamp keep their order |
| `Journal.NewestFirstOfSorted` | src/components/Journal.js:122-123 | a list that is already newest first is shown as it is |
| `Breathing.Reset` | src/components/BreathingMeditation.js:27-35 | reset returns to the intro screen with the full duration and the inhale phase, stops the kept countdown, and cannot reach the intervals whose handles were lost |
| `Breathing.Start` | src/components/BreathingMeditation.js:37-53 | start runs a fresh countdown from the full duration; one more interval is running than before |
| `Breathing.Stop` | src/components/BreathingMeditation.js:73-77 | stop ends the session and its kept countdown; the lost intervals, the time shown, the duration, the phase and both screen flags are untouched |
| `Breathing.SelectDuration` | src/components/BreathingMeditation.js:119-123 | choosing a duration sets both the duration and the time left and closes the selector; the running and completion flags, the phase, the kept countdown and the lost intervals are untouched |
| `Breathing.ChangeAfterComplete` | src/components/BreathingMeditation.js:125-128 | Change Duration swaps the completion screen for the selector; the running flag, the time left, the duration, the phase, the kept countdown and the lost intervals are untouched |
| `Breathing.Tick` | src/components/BreathingMeditation.js:44-53 | one firing counts down by a second, or at one second or less shows completion at 0 and ends the session; the selector flag, the duration and the phase are untouched, and the interval stays running |
| `Breathing.TickFixed` | src/components/BreathingMeditation.js:44-53 | the same callback with the same frame, except that it also stops the interval on completion |
| `Breathing.TickAgrees` | src/components/BreathingMeditation.js:44-53 | the two callbacks differ only in whether the interval keeps running |
| `Breathing.Countdown` | src/components/BreathingMeditation.js:37-53 | started with nothing running, the clock shows `d - k` after `k` seconds and completes after exactly `d`; as written the interval is still running then |
| `Breathing.CountdownFixed` | src/components/BreathingMeditation.js:37-53 | the same countdown with the fix, which leaves nothing running on completion |
| `Breathing.OneScreen` | src/components/BreathingMeditation.js:148-221 | in a sane state exactly one of intro, selector, running and completion screens shows |
| `Breathing.InitialSane` | src/components/BreathingMeditation.js:5-10 | the mounted modal is sane: one minute, not running, nothing shown over the intro |
| `Breathing.StepFixedSane` | src/components/BreathingMeditation.js:27-221 | with the fix, every button and every second keeps the modal sane |
| `Breathing.StepAgreesWhenSane` | src/components/BreathingMeditation.js:27-221 | from a sane state, every single event has the same visible effect with and without the fix |
| `Breathing.CompletionReappears` | src/components/BreathingMeditation.js:44-52 | as written, after a completed session and Change Duration, the next second shows the completion screen over the selector |
| `Breathing.DoubleSpeedAfterChange` | src/components/BreathingMeditation.js:119-128 | as written, choosing a new duration after completion and starting again leaves two countdowns running, so the clock drops two seconds per second |
| `Breathing.FixedCompletionStays` | src/components/BreathingMeditation.js:119-128 | with the fix, the same presses leave the selector alone, and the restarted clock drops one second per second |
| `Breathing.PhasesMatchStyles` | src/components/BreathingMeditation.js:57-104 | each phase lasts exactly as long as its circle transition; the three fill the 12-second cycle; the circle is large while breathing in or holding and small while breathing out |
| `Breathing.PhasePeriodic` | src/components/BreathingMeditation.js:61 | the phase repeats every 12 seconds |
| `Breathing.PresetsWholeCycles` | src/components/BreathingMeditation.js:14-19 | every preset is a whole number of cycles, so a session ends where a new inhale would begin |
| `Breathing.InstructionsDistinct` | src/components/BreathingMeditation.js:106-117 | each phase has its own instruction text |
| `Breathing.JsRem` | src/components/BreathingMeditation.js:81 | JavaScript's `%`, `a - b * trunc(a / b)`: for a non-negative dividend it is the Euclidean remainder; for a negative one it is minus the remainder of `-a`, in `(-b, 0]` |
| `Breathing.TwoDigits` | src/components/BreathingMeditation.js:82 | seconds below a minute, padded to two places, are two digits and read back as themselves |
| `Breathing.FormatTimeParts` | src/components/BreathingMeditation.js:79-83 | for a non-negative count the clock is the whole minutes, a colon and the seconds within the minute padded to two digits |
| `Breathing.FormatTimeRoundTrip` | src/components/BreathingMeditation.js:79-83 | a non-negative count reads back from its clock |
| `Breathing.FormatTimeNegativeExample` | src/components/BreathingMeditation.js:79-83 | a negative count renders with a minus sign on both parts: -5 seconds shows `-1:-5` |

## Left out

- Rendering, CSS, icons, the tab bar, dark mode and the document theme are not modelled; they hold no logic the analytics or the forms depend on.
- `localStorage` persistence and its JSON round trip are not modelled; this is I/O.
- src/components/AudioManager.js and src/components/IdleMinions.js are not part of this model; they are audio and decoration.
- The wall clock is a parameter (`now`, `id`). Two entries created in the same millisecond share an id, and the model allows that.
- Dates: `date-fns` `format` and the local time zone, including daylight-saving days, are the calendar parameter `cal`. `subDays` is modelled as a fixed 24-hour subtraction, which differs from it across a daylight-saving change. Invalid date strings are not modelled.
- Analytics.SortKey: it stands in for parsing `label + ', 2024'`. It agrees with that parse only for labels that are valid 2024 dates. A 29 February label is valid in 2024, so no label produced from a real date falls outside this.
- Analytics.RoundTenths: exact rational rounding, not IEEE-754 arithmetic; the stored average is the tenths value rather than `Math.round(..) / 10`. For every input the app can produce the two agree: an exact half `m / 20` times 10 is computed exactly as `m / 2`, and any other mean lies at least `1 / (2 * count)` tenths from a half, far more than the rounding error of one division and one multiplication. That agreement is an argument about doubles and is not proved here.
- Grouping: JavaScript objects list integer-like keys first, in numeric order. No `'MMM d'` label and no mood label is integer-like, so insertion order is modelled. Keys shared with `Object.prototype` are not modelled.
- Analytics.MoodEmoji: the emoji literals of the analytics lookup are UTF-8 bytes of the logger's glyphs mis-decoded as Windows-1252 (for example value 1 is the text `ðŸ˜¢`), so the analytics page shows that text, not the glyphs. The six texts are pairwise distinct and the default is byte-identical to the text for 3. The model identifies each with the logger's glyph token for the same value, so `Analytics.MoodEmojiAgreesWithTable` states agreement up to that encoding.
- App.EntryPatch: an update object carries only the five entry fields. The spread `{ ...entry, ...updatedFields }` also copies any other key into the entry, and sets a field to `undefined` when the update carries it with that value; the model can express that only for `name`. No caller in the app passes an update.
- Journal.GetPreview: `maxLength` is a natural number, and lengths count characters rather than UTF-16 code units.
- The journal list's `sort` sorts the app's array in place. The model returns a sorted copy and leaves the stored order alone.
- The journal view receives `onUpdateEntry` and `onDeleteEntry` but never uses them. The two operations are modelled at the app level only (`App.UpdateJournalEntry`, `App.DeleteJournalEntry`).
- The "Show less" button sets the expanded entry to none directly. It is not a separate member.
- The journal's `formatDate` display string and its "Unknown date" fallback are not modelled; they are display-only.
- The logger's two-second timer that hides the success banner is not modelled; it is a timer with no effect on data.
- Breathing: the 100 ms interval that advances the phase is not modelled as a timer. `Breathing.PhaseAt` gives the phase at a whole number of tenths of a second. The accumulated floating-point drift of `totalElapsed += 0.1` is not modelled. That interval is not cleared on completion either; the model tracks this leak only for the countdown.
- Breathing.Step: `RepeatPressed` collapses `restartSameDuration`'s 100 ms delay before the new start.
- Breathing.Step: `ClosePressed` stands for closing and reopening the modal, which resets it.
- Breathing.Step: the effect of `setState` batching inside one React event is not modelled; each handler is applied as one state change.

## Findings

| source | as written | input that shows it | evidently intended | confidence | as-written member | corrected member |
|---|---|---|---|---|---|---|
| src/components/BreathingMeditation.js:44-52 | on completion the countdown callback sets the time to 0 and shows completion but never clears its interval, and a later `startMeditation` overwrites the interval handle | two separate inputs, each from a one-minute session that has run to the end: (a) press "Change Duration" and wait one second: the completion screen is shown again over the selector; (b) press "Change Duration", choose a duration within that second, then press Start: two countdowns run and the clock drops two seconds per second | the countdown interval stops when the session completes | not executed; high, the callback has no `clearInterval` and the completion buttons do not reset | `Breathing.CompletionReappears`, `Breathing.DoubleSpeedAfterChange` | `Breathing.StepFixedSane`, `Breathing.FixedCompletionStays` |
