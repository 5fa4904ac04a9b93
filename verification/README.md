# Fallback timetable engine

This project models the deterministic fallback of the timetable optimizer in
`src/services/mistralApi.ts`. The optimizer first asks an external language
model for a timetable. When that request fails, or its answer is not JSON, it
builds one locally, in these steps:

1. It derives the day's time slots from the working hours, the class length,
   the break and the lunch window (`generateTimeSlotsByConstraints`).
2. It lists every required class occurrence: each batch gets each subject
   `classesPerWeek` times.
3. It shuffles that pool with `Math.random`.
4. It places each occurrence greedily. The placement uses the first free
   qualified faculty member and the first free classroom, at the
   highest-scoring (day, slot). Occupancy is tracked in per-batch,
   per-faculty and per-classroom day tables.
5. It reports on the result:
   - conflicts (`detectConflicts`);
   - classroom utilization;
   - faculty workloads in hours;
   - a score between 60 and 100;
   - a list of suggestions.

The model follows the source's own shape:

- **Loops become methods.** Each loop of the source is a method. It is proved
  equal to a specification function, and the source's promises are proved as
  lemmas about that function:
  - `TimeSlots.GenerateTimeSlots` and `DaySlots`;
  - `Pool.BuildPool` and `RequiredClasses`;
  - `Pool.Shuffle`, which works on an array, and `Shuffled`;
  - `Scheduling.PlacePool` and `PlaceAll`;
  - `ConflictDetection.DetectConflicts` and `Conflicts`;
  - `FreePeriods.CountFreePeriods` and `TotalFreePeriods`;
  - `Scoring.CalculateOptimizationScore` and `ScoreOf`;
  - `Suggestions.GenerateSuggestions` and `Advice`.
- **The occupancy tables.** These are local `Map`s of
  `createFallbackTimetable`. The model keeps them as map values that the
  placement loop threads through. They are proved to stay in agreement with
  the timetable built so far (`Tables.RecordKeepsAgreement`).
- **Times** are minutes since midnight. The source's "HH:MM" texts are
  related to these numbers by `TimeFormat`:
  - string order of the texts is numeric order (`SlotTextOrder`);
  - the gap read back from the texts is the numeric gap (`GapOfTexts`);
  - different slots have different texts (`SlotTextInjective`).
- **JavaScript numbers** become reals and integers. `NaN` and `Infinity` are
  kept as values of `Types.Number`, because a timetable with no classroom or
  no slot divides by zero.

The top-level results are these:

- `Fallback.FallbackGuarantees`: the fallback's timetable never double-books
  a batch, a faculty member or a classroom. It assigns only qualified faculty,
  listed classrooms and generated slots. It keeps every batch within
  `maxClassesPerDay`. It places each pool occurrence at most once. Its conflict
  list is empty. Its utilization lies in [0, 100], or is NaN when there is no
  cell to fill. Its score lies in [60, 100].
- `Fallback.OptimizeTimetable`: the optimizer returns the service's parsed
  answer when there is one, and this fallback otherwise.

Two behaviours of the code are kept as they are:

- The code does not reject invalid constraints. The model requires only what
  the slot loop needs in order to stop; see "Left out".
- Utilization is NaN or Infinity when there are no classrooms or no slots.

## Model

| member | source | states |
|---|---|---|
| TimeSlots.GenerateTimeSlots | src/services/mistralApi.ts:700-768 | the hour/minute loop, with its carries and the lunch skip, returns exactly `DaySlots(c)`, the minute-based slot sequence |
| TimeSlots.DaySlotsWellPlaced | src/services/mistralApi.ts:716-765 | every generated slot lasts one class and starts in [startTime, endTime); none touches lunch under the three overlap tests; starts strictly ascend and no slot overlaps a later one |
| TimeSlots.LoopRound | src/services/mistralApi.ts:720-764 | one round of the loop at clock (hour, minute): it emits the slot at that time unless the slot touches lunch under any of the three tests, and moves the clock one class and one effective break on, to the end of lunch when that lands inside lunch; the new clock keeps minute < 60 |
| TimeSlots.ClockOrder | src/services/mistralApi.ts:716-719 | the loop's (hour, minute) test against the end time is the numeric comparison of minute counts |
| TimeSlots.ExampleMorning | src/services/mistralApi.ts:700-768 | 09:00 to 11:00, one-hour classes, no break, lunch at 13:00 give exactly 09:00-10:00 and 10:00-11:00 |
| TimeFormat.ClockTextOrder | src/services/mistralApi.ts:739-741 | comparing two "HH:MM" texts as strings is comparing the times they denote |
| TimeFormat.SlotTextOrder | src/services/mistralApi.ts:567-569 | the string comparison of two slot texts orders slots by start, then end |
| TimeFormat.SlotTextInjective | src/services/mistralApi.ts:603 | two different slots never share a text, so keys built from texts tell slots apart |
| TimeFormat.SlotTextSplits | src/services/mistralApi.ts:684-690 | splitting a slot text at '-' gives the texts of its start and end |
| TimeFormat.ClockTextParses | src/services/mistralApi.ts:692-696 | reading "HH:MM" back with split and Number gives the minutes it was written from |
| TimeFormat.GapOfTexts | src/services/mistralApi.ts:572-576 | the time difference read from two slot texts is the distance between the first's end and the second's start |
| Pool.BuildPool | src/services/mistralApi.ts:307-319 | the three nested loops produce `RequiredClasses`: per batch, per subject, `classesPerWeek` occurrences with the subject's duration or the class length |
| Pool.RequiredClassesMembers | src/services/mistralApi.ts:309-318 | every pool entry is some batch's occurrence of some subject with a positive weekly count and the right duration |
| Pool.RequiredClassesCount | src/services/mistralApi.ts:309-318 | the number of occurrences of a (batch, subject) pair is the number of batches with that id times the weekly demand for the subject id |
| Pool.PoolHoldsWeeklyCount | src/services/mistralApi.ts:309-318 | with distinct batch and subject ids, every (batch, subject) pair occurs exactly `classesPerWeek` times (0 when negative) |
| Pool.Shuffle | src/services/mistralApi.ts:322-328 | the in-place swap loop leaves the array equal to `Shuffled(old contents, draws)` and a permutation of it |
| Pool.ShuffledPermutes | src/services/mistralApi.ts:322-328 | the shuffle keeps every occurrence as often as before and the length unchanged |
| Scheduling.BuildSubjectToFaculty | src/services/mistralApi.ts:264-273 | the map lists, for every subject id, the faculty ids naming it, in faculty order, once per naming (`QualifiedList`) |
| Timetable.QualifiedListMembers | src/services/mistralApi.ts:264-273 | a faculty id is listed for a subject exactly when some faculty member with that id names the subject |
| Scheduling.EmptySlotTable | src/services/mistralApi.ts:293-305 | the faculty and classroom tables start with an empty slot set for every id and day, and nothing else |
| Scheduling.EmptyBatchTables | src/services/mistralApi.ts:281-291 | the batch tables start with an empty class list per day and a zero counter per subject, for every batch |
| Scheduling.Initialize | src/services/mistralApi.ts:256-305 | the set-up before placement: the four tables are those of the empty timetable, and the id counter is 1 |
| Scheduling.FreeFaculty | src/services/mistralApi.ts:360-369 | the faculty loop returns the first qualified faculty member whose day does not hold the slot yet |
| Scheduling.FreeRoom | src/services/mistralApi.ts:373-382 | the classroom loop returns the first classroom whose day does not hold the slot yet |
| Scheduling.Evaluate | src/services/mistralApi.ts:350-419 | the slot-loop body yields `Candidate`. It yields none when the batch is booked then or a search fails, and otherwise the scored (day, slot, faculty, classroom) |
| Scheduling.ScanDay | src/services/mistralApi.ts:350-420 | one day's slot loop continues the best-so-far fold over that day's candidates |
| Scheduling.Select | src/services/mistralApi.ts:336-421 | the day and slot loops, which skip full days, compute `Choose`, the first strictly best candidate of the scan |
| Scheduling.Place | src/services/mistralApi.ts:331-459 | one placement iteration appends the chosen entry, or skips an unqualified or unplaceable occurrence; the tables and id counter stay in agreement |
| Scheduling.PlacePool | src/services/mistralApi.ts:330-460 | the placement loop over the shuffled pool builds exactly `PlaceAll(pool)` |
| Tables.RecordKeepsAgreement | src/services/mistralApi.ts:436-458 | the four table updates after a placement turn tables that agree with a timetable into tables that agree with it extended by the new entry |
| Tables.RecordedBooks | src/services/mistralApi.ts:439-458 | recording an entry in each table gives exactly the tables of the extended timetable |
| Selection.FoldIsFirstStrictMax | src/services/mistralApi.ts:336-419 | the `score > bestScore` scan returns a score bounding every candidate. Its choice is a candidate that no earlier candidate matches. It is empty exactly when no candidate scores 0 or more |
| Selection.ChosenAdmissible | src/services/mistralApi.ts:346-384 | a choice passed every check: the batch's day is below the cap and the batch is free then. The faculty member is qualified, free and non-empty; the classroom is listed, free and non-empty |
| Selection.ChosenIsMax | src/services/mistralApi.ts:386-419 | no scanned candidate scores more than the choice |
| Selection.NothingChosen | src/services/mistralApi.ts:411-424 | no class is placed exactly when every scanned candidate is invalid or scores below 0 |
| Selection.IndexOf | src/services/mistralApi.ts:391-392 | `indexOf` is -1 exactly for absent slots, and otherwise the first position holding the slot |
| Selection.FirstFreeFrom | src/services/mistralApi.ts:361-382 | the search returns nothing exactly when every id is busy, and otherwise the first id that is not busy |
| Timetable.PlacePreservesSound | src/services/mistralApi.ts:423-458 | placing one occurrence keeps the timetable sound: no double booking, qualified faculty, listed classroom and slot, cap respected, ids 1, 2, 3, ... |
| Timetable.PlaceAllSound | src/services/mistralApi.ts:330-460 | every timetable the placement pass builds is sound |
| Timetable.PlaceAllFromPool | src/services/mistralApi.ts:330-460 | every entry stands for a pool occurrence, and each occurrence is placed at most once |
| Timetable.UnqualifiedNeverPlaced | src/services/mistralApi.ts:332-334 | a subject that no faculty member names never appears in the timetable |
| Selection.EmptyWeekChoice | src/services/mistralApi.ts:386-419 | on a week with no classes, the choice is Monday's first slot with the first qualified faculty member and the first classroom: every candidate ties but for the earlier-slot bonus, and `score > bestScore` keeps the first best |
| Selection.RepeatScore | src/services/mistralApi.ts:389-409 | after one class of the subject on Monday, a Monday candidate for another occurrence scores at least 15 below a free day's first slot (at most +10 adjacency, -5 slack, -20 same subject) |
| Selection.RepeatChoice | src/services/mistralApi.ts:386-419 | a second occurrence of a subject the batch has on Monday is placed, and not on Monday |
| Timetable.SinglePlacement | src/services/mistralApi.ts:330-460 | one occurrence in an empty week becomes the only entry, numbered 1, on Monday at the first generated slot, with the first qualified faculty member and the first classroom |
| Timetable.RepeatOnAnotherDay | src/services/mistralApi.ts:330-460 | two occurrences of one subject for one batch are both placed, on two different days (Monday, then another) |
| ConflictDetection.DetectConflicts | src/services/mistralApi.ts:597-627 | the two passes report exactly `Conflicts`: a faculty report for each repeat of a (faculty, day, slot) key, then a classroom report for each repeat of a (classroom, day, slot) key |
| ConflictDetection.NoConflictsIff | src/services/mistralApi.ts:597-627 | there is no report exactly when no faculty member and no classroom is used twice at the same day and slot |
| ConflictDetection.FacultyConflictsCount | src/services/mistralApi.ts:600-611 | faculty reports plus distinct faculty keys add up to the number of classes |
| ConflictDetection.RoomConflictsCount | src/services/mistralApi.ts:613-624 | classroom reports plus distinct classroom keys add up to the number of classes |
| ConflictDetection.SoundHasNoConflicts | src/services/mistralApi.ts:597-627 | a timetable the placement pass could build produces no conflict report |
| Metrics.Round | src/services/mistralApi.ts:495 | `Math.round` gives the integer n with n - 0.5 <= x < n + 0.5 |
| Metrics.SoundFitsGrid | src/services/mistralApi.ts:493 | a sound timetable holds at most classrooms x slots x 5 classes |
| Metrics.UtilizationBounds | src/services/mistralApi.ts:488-496 | for a timetable the pass could build, utilization is a whole percentage in [0, 100]. It is NaN, with no class placed, when there is no classroom or no slot |
| Metrics.WorkloadMeaning | src/services/mistralApi.ts:498-516 | every faculty id has a workload, idle members included, and each is the whole number of hours nearest its teaching minutes |
| Metrics.IdleFacultyHasZero | src/services/mistralApi.ts:504-513 | a faculty member with no class has workload 0 |
| Metrics.WorkloadValuesMeaning | src/services/mistralApi.ts:536-538 | `Object.values` has one value per distinct faculty id, each some member's workload |
| Metrics.MaxOf | src/services/mistralApi.ts:653 | `Math.max` of workloads is one of them and bounds them all |
| Metrics.MinOf | src/services/mistralApi.ts:654 | `Math.min` of workloads is one of them and is below them all |
| Metrics.VarianceMeaning | src/services/mistralApi.ts:539-545 | the workload variance is never negative, and it is 0 when every workload is the same |
| FreePeriods.GroupByBatchDay | src/services/mistralApi.ts:555-562 | grouping by (batch, day) yields the keys in first-seen order, each mapped to its classes in placement order |
| FreePeriods.GroupKeysMeaning | src/services/mistralApi.ts:555-562 | the group keys are exactly the (batch, day) pairs of the timetable, without repeats |
| FreePeriods.SortSlotsMeaning | src/services/mistralApi.ts:567-569 | the sorted group is ascending in slot-text order and holds the same slots |
| FreePeriods.SortIgnoresOrder | src/services/mistralApi.ts:567-569 | the sorted group depends only on which slots the group holds, not on placement order |
| FreePeriods.AddGaps | src/services/mistralApi.ts:570-580 | the inner loop adds one for each consecutive pair whose gap exceeds the break |
| FreePeriods.CountFreePeriods | src/services/mistralApi.ts:551-582 | grouping, sorting and counting give exactly `TotalFreePeriods` |
| FreePeriods.FreeInBound | src/services/mistralApi.ts:566-581 | a group of n classes has at most n - 1 free periods |
| FreePeriods.FreePeriodsBound | src/services/mistralApi.ts:551-582 | there are never more free periods than classes |
| Scoring.CalculateOptimizationScore | src/services/mistralApi.ts:518-595 | the sequence of deductions returns `ScoreOf`: 100 minus the utilization, balance, free-period and conflict penalties, rounded, at least 60 |
| Scoring.PenaltiesNonNegative | src/services/mistralApi.ts:532-592 | no check ever adds points |
| Scoring.ScoreBounds | src/services/mistralApi.ts:594 | the score lies in [60, 100] |
| Scoring.PerfectScore | src/services/mistralApi.ts:524-594 | the score is 100 exactly when the penalties total at most half a point |
| Scoring.ConflictsLowerScore | src/services/mistralApi.ts:590-594 | each conflict report costs five points until the floor of 60 |
| Suggestions.GenerateSuggestions | src/services/mistralApi.ts:629-682 | the checks and pushes return `Advice` of the utilization, the workload values and the number of conflict reports |
| Suggestions.MessagesMeaning | src/services/mistralApi.ts:635-679 | each message appears exactly when its check fires, in check order; the affirmative message appears exactly when no check fired, and then alone |
| Suggestions.NoFacultyNoWorkloadAdvice | src/services/mistralApi.ts:648-666 | without faculty neither workload message is given |
| Suggestions.SoundNeedsNoConflictAdvice | src/services/mistralApi.ts:668-673 | a timetable the placement pass could build is never told to resolve conflicts |
| Fallback.CreateFallbackTimetable | src/services/mistralApi.ts:249-486 | slots, pool, shuffle, placement, then conflicts, score, suggestions, utilization and workloads of the result: exactly `Fallback(...)` |
| Fallback.FallbackGuarantees | src/services/mistralApi.ts:249-486 | the fallback's result is sound, drawn from the pool and conflict free. It gets no conflict advice. Its score is in [60, 100]. Its utilization is in [0, 100], or NaN with an empty timetable when there is no cell |
| Fallback.PoolIdsListed | src/services/mistralApi.ts:309-318 | every pool occurrence names a listed batch and a listed subject, so its tables exist |
| Fallback.OptimizeTimetable | src/services/mistralApi.ts:28-120 | a parsed answer is returned as is; any failure returns the fallback for the same inputs |

## Left out

- The request to the external service, the prompt text, JSON parsing and the answer's shape are not modelled. The reply is a parameter: a parsed answer, or a failure. The parsed answer is not validated, as in the source.
- `specialClasses` is not modelled: the fallback never reads it. It is only sent to the external service.
- `console.error` logging is left out.
- Numbers are mathematical reals and integers, not IEEE doubles. Rounding errors in `duration / 60` sums and in the variance are not modelled. `NaN` and `Infinity` from dividing by zero are modelled.
- String comparison (`localeCompare`, `<` and `>=` on "HH:MM" texts) is modelled as code-unit order on the digits. The model proves that this order is the numeric order of the times for times below 100:00 (two-digit hours). A locale whose collation orders digits differently is not modelled.
- Conflict messages and suggestions are enumerations, not the source's English sentences.
- Entry ids `slot_1`, `slot_2`, ... are the numbers 1, 2, ...
- Keys built by string concatenation (`${faculty}-${day}-${slot}`, `${batch}-${day}`) are modelled as tuples. The string key determines the tuple: the day is one of five fixed names, and the slot text has fixed width, so both can be split off from the right whatever the id contains (hours below 100; see GapOfTexts).
- `Object.values` on the workload object is modelled as one value per distinct faculty id, in first-occurrence order. JavaScript lists integer-like keys first. Only the sum, maximum, minimum and variance of these values are used, and none of them depends on the order.
- `this.currentConstraints`, set at the start of `optimizeTimetable`, is passed as a parameter.
- Record fields the fallback never reads are not modelled: the classroom's capacity and type, the batch's size, the subject's name, and the faculty member's name.
- Subject durations: only the falsy value 0 is modelled as missing. Other falsy or non-numeric values are not modelled.
- Number parsing (`parseInt`, `Number`) is modelled only on the digit texts the time fields produce.
- TimeSlots.GenerateTimeSlots: requires that the loop terminates, i.e. a positive class length plus effective break, or a start no earlier than the end. Otherwise the source loops forever, except when the start lies inside lunch and lunch ends at or after the end time; then it stops after one round with no slot. The form never gives a class length of 0 (`parseInt(...) || 60` in `src/components/InputForms/ConstraintsForm.tsx`), so the requirement is met whenever the constraints come from the form. It also requires well-formed clock readings (hour < 24, minute < 60), which a filled-in time input of the form gives. An empty time field, which the form allows, is not modelled: with an empty start or end the source's `parseInt` gives NaN and no slot is generated, and with an empty lunch field no lunch test or lunch skip ever fires. Class and break lengths are natural numbers: a negative length, which a typed "-15" in the form's number inputs would give, is not modelled. With such a length the source emits slots that end before they start, and minute values below 0 that its carry does not normalise.
- TimeSlots.LoopRound: the lunch tests and the lunch skip compare minute counts. The source compares "HH:MM" texts, which agree with the minute counts only while hours have two digits. A slot end or cursor at 100:00 or later, reachable with a class length of about 90 hours, is therefore not modelled as the source treats it. There the source's text "100:00" sorts below "13:00", so it may keep a slot the model drops, or jump back to the end of lunch where the model moves on.
- TimeSlots.GenerateTimeSlots: equals the source's loop only while every slot end and cursor stays below 100:00, for the reason given for TimeSlots.LoopRound. Past that point the source may emit a slot the model omits, or loop forever where the model stops.
- Fallback.CreateFallbackTimetable: `Math.random` is replaced by a sequence of draws in [0, 1), one per swap of the shuffle. The requirement of at least |pool| - 1 draws stands in for an unlimited random source. The distribution of the shuffle is not modelled.
- TimeFormat.GapOfTexts: proved for times below 6000 minutes (two-digit hours). Slot ends past 99:59, which a very long day could reach, are not modelled in text form. The free-period count uses the numeric gap.
- FreePeriods.CountFreePeriods: compares the gap with the configured `breakDuration` even when breaks are disabled, as the source does. The model keeps that behaviour and does not correct it. A negative `breakDuration` is not modelled (see TimeSlots.GenerateTimeSlots).
