# Kaizen study planner — a Dafny model of its timer and dashboard

Kaizen is a planner for students preparing for the Bangladeshi HSC exams. This project models
three parts of it and proves properties of the model.

- **Pomodoro timer.** The timer hook keeps one timer state: the phase (work, short break or
  long break), whether a run is active, the session count, the manual work length, the start
  timestamp of the current run, the seconds already folded in by earlier pauses, and a
  completion flag. It also keeps the time left and whether the floating widget is visible.
  The widget shows the phase label and an `MM:SS` clock, and has play/pause and skip buttons.
- **Dashboard cards.** These compute values from the user's data:
  - the exam countdown;
  - per-subject and overall topic completion;
  - study minutes this week and the daily-goal streak;
  - this month's milestones, today's goals, this week's goals and today's routine;
  - the ten most recent study sessions;
  - the header's page title and the user's initials.
- **Seed data.** The syllabus generators and the default settings, goals and routine.

Module by module:

| module | file | models |
|---|---|---|
| `Timer` | `timer.dfy` | the timer hook. Pure transition functions on a `Machine` record (`Start`, `Pause`, `Tick`, …) are the specification. Class `StudyTimer` holds the same fields and updates them in place; each of its methods ensures `Model() == Spec(old(Model()), …)`. |
| `PersistentTimer` | `persistent_timer.dfy` | the floating widget: `formatTime`, the label table, the visibility gate and the two buttons |
| `Countdown` | `countdown.dfy` | the exam countdown |
| `SubjectProgress` | `subject_progress.dfy` | the subject progress list |
| `QuickStats` | `quick_stats.dfy` | overall completion, weekly minutes and the study streak (the streak as a method over a sorted array) |
| `MonthlyGoals`, `TodaysGoals`, `WeeklyGoals`, `TodaysRoutine`, `RecentSessions` | one file each | the corresponding dashboard cards |
| `Header` | `header.dfy` | page titles and initials |
| `Constants`, `Data` | `constants.dfy`, `data.dfy` | `constants.ts` and `data.ts` |
| `Types` | `types.dfy` | the records of `lib/types.ts` that the core reads |
| `Sorting` | `sorting.dfy` | JavaScript's stable `Array.prototype.sort` with a descending comparator: a reference insertion sort on sequences, and an in-place method on arrays proved equal to it |
| `Dates`, `JsMath`, `Text`, `Lookup` | | shared helpers: day numbers and Saturday-first weeks; JavaScript `%`, `Math.round` and truncating division; digit strings, `padStart`, `toUpperCase`, `split(' ')`; `Array.prototype.find` |

Conventions of the model:

- Time is an integer count of milliseconds since the epoch, passed in where the source calls
  `Date.now()` or `new Date()`.
- Calendar dates are integer day numbers; day 0 is a Thursday.
- A week starts on its Saturday, so a `yyyy-MM-dd` week-start or day string becomes a day number.
- A month key (`yyyy-MM`) is a string supplied by the caller.
- Ids that the source draws from `nanoid` are parameters or the empty string.
- Percentages that the source computes with `Math.round` are integers. Those it leaves
  unrounded are `real`.
- JavaScript's `%` keeps the sign of the dividend, and the model writes that operator out
  (`JsMath.JsRem`).
- `Math.floor(x / 1000)` is Dafny's `/` by a positive divisor, which floors for negative
  operands too.

The timer keeps `elapsedTime` so that a pause and a later resume lose no progress. The code
as written does lose it; the first finding below explains why. The model follows the code
and also gives the corrected trigger. Under either trigger, reloading the page discards a
paused session's progress. React runs the sync effect once on mount, and that run zeroes the
restored `elapsedTime` (`Timer.ReloadLosesPausedProgress`).

## Model

| member | source | states |
|---|---|---|
| Timer.InitialState | src/hooks/use-timer.tsx:44-56 | a restored state is never marked completed; the `\|\|` fallbacks mean it never has a zero manual duration or a zero start time |
| Timer.RestoreSaved | src/hooks/use-timer.tsx:76-79 | restoring the saved snapshot gives the state back, with the completion flag cleared, exactly when neither the manual duration nor the start time is a falsy 0; this is the state before the mount-time sync, which `MountForgetsIdleProgress` describes |
| Timer.RestoreFromEmptyStore | src/hooks/use-timer.tsx:44-56 | an empty store restores an idle 25-minute work phase with no sessions, and that state is consistent |
| Timer.RestoreMayBeInconsistent | src/hooks/use-timer.tsx:44-56 | some stored record restores to a state that is active but has no start time |
| Timer.RestoreKeepsConsistency | src/hooks/use-timer.tsx:44-56 | a consistent state with a real start time survives saving and restoring consistent |
| Timer.DurationSources | src/hooks/use-timer.tsx:64-73 | a work phase's length depends only on the manual duration; a short or long break's depends only on the matching setting; every length is whole minutes |
| Timer.Tick | src/hooks/use-timer.tsx:89-106 | `calculateTimeLeft` on the state; no contract of its own; stated by `TickWhileIdle`, `TickWhileCounting`, `TickIsMonotone` and `TickLosesOneSecondPerSecond` |
| Timer.Start | src/hooks/use-timer.tsx:130-136 | `startTimer`; no contract of its own; stated by `StartGuard` |
| Timer.Pause | src/hooks/use-timer.tsx:138-147 | `pauseTimer`; no contract of its own; stated by `PauseFoldsElapsedTime`, `PauseIsIdempotent` and `ActiveWithoutStartIsStuck` |
| Timer.Reset | src/hooks/use-timer.tsx:149-161 | `resetTimer`; no contract of its own; stated by `ResetForgets` |
| Timer.EndWork | src/hooks/use-timer.tsx:163-176 | `endWorkSession`; no contract of its own; stated by `EndWorkStartsBreak`, `SessionsCount` and `LongBreakEveryFourth` |
| Timer.Skip | src/hooks/use-timer.tsx:178-190 | `skipTimer`; no contract of its own; stated by `SkipOnlyEndsBreaks` |
| Timer.ChangeManualDuration | src/hooks/use-timer.tsx:192-196 | `setManualDuration`; no contract of its own; stated by `SettersRespectActiveRun` |
| Timer.ChangeSessionType | src/hooks/use-timer.tsx:198-202 | `setSessionType`; no contract of its own; stated by `SettersRespectActiveRun` |
| Timer.Sync | src/hooks/use-timer.tsx:119-127 | the settings-sync effect; no contract of its own; stated by `SyncRebasesIdlePhase` and `SettingsChangeRebasesIdleWork` |
| Timer.TickWhileIdle | src/hooks/use-timer.tsx:89-92 | when not counting, the tick ignores the clock, changes no state, and shows duration minus folded seconds |
| Timer.TickWhileCounting | src/hooks/use-timer.tsx:94-105 | when counting, time left is duration minus folded seconds minus floor of elapsed ms / 1000, clamped at 0; reaching 0 stops the run, clears the start and folded time, and sets the completion flag |
| Timer.TickIsMonotone | src/hooks/use-timer.tsx:94-105 | during a run, a later reading never shows more time left |
| Timer.TickLosesOneSecondPerSecond | src/hooks/use-timer.tsx:94-105 | 1000 ms later a running countdown shows exactly one second less, or 0 |
| Timer.StartGuard | src/hooks/use-timer.tsx:130-136 | `startTimer` changes something iff the phase has positive length and no run is active; it then sets active, the start time `now`, and a visible widget |
| Timer.PauseIsIdempotent | src/hooks/use-timer.tsx:138-147 | pausing twice equals pausing once, whatever the two clock readings |
| Timer.PauseFoldsElapsedTime | src/hooks/use-timer.tsx:138-147 | a pause adds the whole elapsed seconds to `elapsedTime`, clears the start and stops the run; while time remains, the time left right after equals the time left right before |
| Timer.ActiveWithoutStartIsStuck | src/hooks/use-timer.tsx:139 | an active state without a start time can be neither paused nor started, and its clock is frozen |
| Timer.ResetForgets | src/hooks/use-timer.tsx:149-161 | any two machines reset to the same state and visibility: idle work phase, count 0, nothing folded, not completed, manual duration from the settings, widget hidden; the next tick shows the full work length |
| Timer.EndWorkStartsBreak | src/hooks/use-timer.tsx:163-176 | the count grows by exactly one; a long break iff the new count is a multiple of 4, else a short break; the break starts now and is shown; `wasCompleted` has no influence |
| Timer.SessionsCount | src/hooks/use-timer.tsx:163-176 | n end-then-skip rounds add exactly n to the session count |
| Timer.LongBreakEveryFourth | src/hooks/use-timer.tsx:165 | from a reset, the n-th completed work session leads to a long break exactly when n is a multiple of 4 |
| Timer.SkipOnlyEndsBreaks | src/hooks/use-timer.tsx:178-190 | in a work phase skip changes nothing; in a break it returns to an idle, hidden work phase with nothing folded, keeping the count and the manual duration |
| Timer.SettersRespectActiveRun | src/hooks/use-timer.tsx:192-202 | both setters are ignored during a run; otherwise they set their field and zero the folded seconds, and nothing else |
| Timer.SyncRebasesIdlePhase | src/hooks/use-timer.tsx:119-127 | the settings sync leaves a running timer alone; an idle one loses its folded seconds; an idle work phase takes the configured work length; phase and activity are kept |
| Timer.ApplyKeepsConsistency | src/hooks/use-timer.tsx:130-206 | every operation, the tick and the sync keep "active iff a start time is set" |
| Timer.RunKeepsConsistency | src/hooks/use-timer.tsx:130-206 | any sequence of operations keeps that invariant |
| Timer.RunCountsSessions | src/hooks/use-timer.tsx:163-176 | any sequence keeps the session count non-negative, and one without end-of-work or reset leaves it unchanged |
| Timer.DefaultPomodoroScenario | src/lib/data.ts:16-20 | with default settings: a 25-minute run has ended 1500 s after its start; ending it starts a 300 s short break; skipping that break gives an idle 1500 s work phase |
| Timer.PauseLosesProgressAsWritten | src/hooks/use-timer.tsx:127 | with the effect's dependency list as written, pausing 10 minutes into a 25-minute session makes the clock jump from 15:00 back to 25:00 |
| Timer.PauseKeepsProgress | src/hooks/use-timer.tsx:118-127 | with the intended trigger, the sync does not fire on a pause, and the time left after the pause settles equals the time left before it |
| Timer.SettingsChangeRebasesIdleWork | src/hooks/use-timer.tsx:118-127 | with the intended trigger, a change of settings still gives an idle work phase the new work length and zero folded seconds |
| Timer.SettingsOfARunWaitForTheNextChange | src/hooks/use-timer.tsx:118-127 | stopping a work run as written applies the current work length and zeroes the folded seconds; with the intended trigger the run's old length is kept |
| Timer.Mounted | src/hooks/use-timer.tsx:58-62 | the provider after its first render: the restored state, then the sync effect's mount-time run; no contract of its own; stated by `MountForgetsIdleProgress` |
| Timer.MountForgetsIdleProgress | src/hooks/use-timer.tsx:118-127 | on mount a restored run is kept; a restored idle phase loses its folded seconds, and an idle work phase takes the configured work length; `timeLeft` 0 and the stored visibility |
| Timer.ReloadLosesPausedProgress | src/hooks/use-timer.tsx:118-127 | a session paused at 15:00 of 25 minutes is saved and restored exactly, yet reads 25:00 after the mount |
| Timer.StudyTimer.constructor | src/hooks/use-timer.tsx:60-62 | the hook starts from the restored state, a time left of 0, and the stored visibility or hidden |
| Timer.StudyTimer.CalculateTimeLeft | src/hooks/use-timer.tsx:89-106 | the fields afterwards are `Tick` of the fields before |
| Timer.StudyTimer.StartTimer | src/hooks/use-timer.tsx:130-136 | the fields afterwards are `Start` of the fields before |
| Timer.StudyTimer.PauseTimer | src/hooks/use-timer.tsx:138-147 | the fields afterwards are `Pause` of the fields before |
| Timer.StudyTimer.ResetTimer | src/hooks/use-timer.tsx:149-161 | the fields afterwards are `Reset` of the fields before |
| Timer.StudyTimer.EndWorkSession | src/hooks/use-timer.tsx:163-176 | the fields afterwards are `EndWork` of the fields before |
| Timer.StudyTimer.SkipTimer | src/hooks/use-timer.tsx:178-190 | the fields afterwards are `Skip` of the fields before |
| Timer.StudyTimer.SetManualDuration | src/hooks/use-timer.tsx:192-196 | the fields afterwards are `ChangeManualDuration` of the fields before |
| Timer.StudyTimer.SetSessionType | src/hooks/use-timer.tsx:198-202 | the fields afterwards are `ChangeSessionType` of the fields before |
| Timer.StudyTimer.ClearSessionCompleted | src/hooks/use-timer.tsx:204-206 | only the completion flag is cleared |
| Timer.StudyTimer.SetIsTimerVisible | src/hooks/use-timer.tsx:61 | only the visibility changes |
| Timer.StudyTimer.SyncSettings | src/hooks/use-timer.tsx:119-127 | the fields afterwards are `Sync` of the fields before |
| Timer.StudyTimer.SettleChange | src/hooks/use-timer.tsx:119-127 | after a change from `before`, the sync runs only if the intended trigger fired |
| Timer.Mount | src/hooks/use-timer.tsx:58-62 | constructing the provider in place and then running the sync effect gives the fields `Mounted` describes |
| PersistentTimer.FormatTime | src/components/persistent-timer.tsx:9-15 | `formatTime`; no contract of its own; stated by `FormatTimeOfNat`, `FormatTimeRoundTrip`, `ClockFields`, `FormatTimeLength` and `FormatTimeOfNegative` |
| PersistentTimer.FormatTimeOfNat | src/components/persistent-timer.tsx:9-15 | for s >= 0 the clock is the zero-padded minutes, a colon, and the zero-padded seconds of s |
| PersistentTimer.FormatTimeRoundTrip | src/components/persistent-timer.tsx:9-15 | for s >= 0, reading the clock back as minutes*60 + seconds gives s |
| PersistentTimer.ClockFields | src/components/persistent-timer.tsx:10-14 | for s >= 0 the clock is two digit fields around a colon; the seconds field is exactly two digits; the fields read back to s |
| PersistentTimer.FormatTimeLength | src/components/persistent-timer.tsx:12-14 | the clock is exactly 5 characters for 0 <= s < 6000, and longer from 100 minutes on, since `padStart` never truncates |
| PersistentTimer.FormatTimeOfNegative | src/components/persistent-timer.tsx:10-11 | a small negative count shows floored minutes and a negative remainder (-5 gives "-1:-5") |
| PersistentTimer.SessionTypeInfo | src/components/persistent-timer.tsx:17-24 | `getSessionTypeInfo`; no contract of its own; stated by `SessionTypeInfoTells` |
| PersistentTimer.SessionTypeInfoTells | src/components/persistent-timer.tsx:17-24 | the label is "Focus" iff work, else "Break"; the three colours are pairwise distinct |
| PersistentTimer.Widget | src/components/persistent-timer.tsx:75 | the widget renders nothing exactly when it is not visible |
| PersistentTimer.WidgetFollowsTheTimer | src/components/persistent-timer.tsx:75-96 | a real start shows the widget; a reset hides it; a skipped break hides it; an ended work session shows it with "Break" |
| PersistentTimer.PlayThenPause | src/components/persistent-timer.tsx:95 | play then pause on an idle phase folds exactly the whole seconds between the two presses, leaves it idle and the widget shown, and keeps the phase and the count |
| PersistentTimer.Press | src/components/persistent-timer.tsx:95-98 | the two buttons on the hook's state; no contract of its own; stated by `PressGuards`, `PlayThenPause` and `PressButton` |
| PersistentTimer.PressGuards | src/components/persistent-timer.tsx:95-98 | play/pause on an active timer is exactly `pauseTimer`, which stops the run or changes nothing; skip during work changes nothing |
| PersistentTimer.PressButton | src/components/persistent-timer.tsx:95-98 | a click changes the hook's fields as `Press` says: pause when active, else start; skip always calls skip |
| Countdown.Decompose | src/components/dashboard/countdown.tsx:28-37 | non-positive totals give all zeros; otherwise hours < 24, minutes < 60, seconds < 60, and the four fields add up to the total |
| Countdown.DecomposeUnique | src/components/dashboard/countdown.tsx:33-36 | any in-range days/hours/minutes/seconds adding up to t > 0 is the decomposition of t |
| Countdown.TimeLeft | src/components/dashboard/countdown.tsx:13-37 | with no exam date the fields stay zero; otherwise the whole seconds to the exam are decomposed |
| Countdown.TimeLeftAddsUp | src/components/dashboard/countdown.tsx:26-37 | under a second to go shows zero; otherwise the shown total in seconds is the time to the exam, truncated to whole seconds |
| Countdown.DisplayShowsTheClock | src/components/dashboard/countdown.tsx:64-76 | each shown field is digits reading back as its value; hours, minutes and seconds are exactly two characters, days at least two |
| SubjectProgress.CompletedTopics | src/components/dashboard/subject-progress-list.tsx:18 | completed topics never exceed total topics |
| SubjectProgress.CompletedTopicsWhenAllCompleted | src/components/dashboard/subject-progress-list.tsx:17-18 | completed equals total exactly when every topic of every chapter is completed |
| SubjectProgress.Progress | src/components/dashboard/subject-progress-list.tsx:19 | 0 for no topics; otherwise round(100*completed/total), between 0 and 100, and 100 when all are completed |
| SubjectProgress.WithProgress | src/components/dashboard/subject-progress-list.tsx:16-20 | the subject is kept; the counts are the chapter sums; completed <= total and progress is in 0..100 |
| SubjectProgress.SubjectsWithProgress | src/components/dashboard/subject-progress-list.tsx:14-22 | missing subjects give []; otherwise one entry per subject, in order |
| SubjectProgress.FullProgress | src/components/dashboard/subject-progress-list.tsx:17-19 | no topics reads 0%; all topics completed reads 100%; a reading of 100% means topics exist and at least 99.5% of them are completed |
| QuickStats.AllTopicsCounts | src/components/dashboard/quick-stats.tsx:36-38 | the flattened topic list is as long as the sum of every chapter's topics |
| QuickStats.CountCompleted | src/components/dashboard/quick-stats.tsx:42 | the count is at most the list length; 0 iff no topic is completed in the progress map; the full length iff all are |
| QuickStats.OverallCompletion | src/components/dashboard/quick-stats.tsx:40-44 | the figure is between 0 and 100 |
| QuickStats.OverallCompletionMeaning | src/components/dashboard/quick-stats.tsx:40-44 | no topics reads 0; otherwise round(100*completed/total); 100 when all are completed in the map; 0 when none is |
| QuickStats.OverallCompletionIgnoresTopicStatus | src/components/dashboard/quick-stats.tsx:42 | only the progress map counts: an empty map reads 0 whatever the topics' own status |
| QuickStats.WeeklyMinutes | src/components/dashboard/quick-stats.tsx:46-52 | 0 before the client flag is set or with no sessions; otherwise the minutes of sessions dated from the Saturday week start on |
| QuickStats.MinutesSinceBounds | src/components/dashboard/quick-stats.tsx:49-50 | sessions all before the week start count 0 minutes; with non-negative durations, an earlier start never counts fewer minutes, and the total is at most the sum over all sessions |
| QuickStats.Streak | src/components/dashboard/quick-stats.tsx:60-67 | the streak loop over the sorted goals; no contract of its own; stated by `StreakBound`, `StreakWitnessed` and `StreakLoop` |
| QuickStats.StreakBound | src/components/dashboard/quick-stats.tsx:60-67 | the loop never counts more than the number of goals it visits |
| QuickStats.StreakWitnessed | src/components/dashboard/quick-stats.tsx:60-63 | each counted day k has a completed goal dated k days before today |
| QuickStats.StudyStreakMeaning | src/components/dashboard/quick-stats.tsx:54-69 | the streak is at most the number of daily goals, and each of its days, counting back from today, has a completed goal |
| QuickStats.StudyStreak | src/components/dashboard/quick-stats.tsx:54-69 | the method (sorted copy, then loop) returns the streak of the specification; the goals themselves are a value and are not reordered |
| QuickStats.StreakLoop | src/components/dashboard/quick-stats.tsx:60-67 | the loop with its `break` computes the specification's streak over the sorted goals |
| Sorting.SortDesc | src/components/dashboard/recent-sessions.tsx:20 | the reference stable descending sort; no contract of its own; stated by `SortDescPermutes`, `SortDescIsSorted` and `SortDescIsStable` |
| Sorting.SortDescPermutes | src/components/dashboard/recent-sessions.tsx:20 | sorting keeps the length and the multiset of elements |
| Sorting.SortDescIsSorted | src/components/dashboard/recent-sessions.tsx:20 | the result is non-increasing in the key |
| Sorting.SortDescIsStable | src/components/dashboard/quick-stats.tsx:58 | elements with equal keys keep their input order, as JavaScript's stable sort does |
| Sorting.SortByKeyDesc | src/components/dashboard/recent-sessions.tsx:20 | the in-place sort leaves the array equal to the reference sort of its old contents |
| Sorting.SinkLast | src/components/dashboard/recent-sessions.tsx:20 | one insertion step: the prefix becomes the insertion of its next element, and the rest is unchanged |
| MonthlyGoals.CurrentMonthlyGoal | src/components/dashboard/monthly-goals.tsx:21-23 | the first monthly goal for the month (a member of the list with that month), or none iff no goal has it |
| MonthlyGoals.SubjectPercent | src/components/dashboard/monthly-goals.tsx:29-35 | in 0..100; 0 for a subject without topics; otherwise completed/total*100, where completed counts the subject's topics the progress map marks completed |
| MonthlyGoals.SubjectPercentExtremes | src/components/dashboard/monthly-goals.tsx:29-35 | a subject with topics, all completed in the map, reads 100; one with none completed reads 0 |
| MonthlyGoals.ProgressData | src/components/dashboard/monthly-goals.tsx:25-38 | the dictionary the `forEach` fills; no contract of its own; stated by `ProgressDataEntries`, `ProgressDataKeys`, `ProgressDataRange` and `ProgressDataLastWins` |
| MonthlyGoals.ProgressDataEntries | src/components/dashboard/monthly-goals.tsx:27-37 | the keys are exactly the subject ids; every value is in 0..100; for a subject id not repeated later the entry is that subject's percentage |
| MonthlyGoals.ProgressDataKeys | src/components/dashboard/monthly-goals.tsx:28-36 | the dictionary's keys are exactly the subject ids |
| MonthlyGoals.ProgressDataRange | src/components/dashboard/monthly-goals.tsx:34-35 | every value lies in 0..100 |
| MonthlyGoals.ProgressDataLastWins | src/components/dashboard/monthly-goals.tsx:28-36 | a subject not followed by one with the same id owns its entry |
| MonthlyGoals.SubjectProgressData | src/components/dashboard/monthly-goals.tsx:25-38 | the `forEach` fill gives {} for missing subjects, else the specification's dictionary |
| MonthlyGoals.Row | src/components/dashboard/monthly-goals.tsx:49-61 | a milestone renders nothing iff no subject has its id; otherwise it shows that subject's name and colour, its target, and its progress or 0 |
| MonthlyGoals.MonthlyCard | src/components/dashboard/monthly-goals.tsx:47-72 | the empty state shows iff there is no goal for the month; otherwise one row per milestone, row i being `Row` of milestone i |
| MonthlyGoals.MonthlyCardShowsProgress | src/components/dashboard/monthly-goals.tsx:45-61 | with the dictionary the card computes, every shown milestone row has a current value in 0..100 and the milestone's own target |
| MonthlyGoals.RowsShowPercentages | src/components/dashboard/monthly-goals.tsx:49-59 | a rendered milestone's current value is in 0..100 |
| TodaysGoals.TodaysGoal | src/components/dashboard/todays-goals.tsx:17-28 | the goal is dated today: the first stored one with that date, else the default |
| TodaysGoals.HoursProgress | src/components/dashboard/todays-goals.tsx:30 | actual/target*100 for a positive target, else 100 |
| TodaysGoals.TopicsProgress | src/components/dashboard/todays-goals.tsx:31 | actual/target*100 for a positive target, else 100 |
| TodaysGoals.ProgressAgainstTarget | src/components/dashboard/todays-goals.tsx:30-31 | for a positive target, below 100 iff actual is below target, exactly 100 iff equal, above 100 iff above (no clamping) |
| TodaysGoals.ShowsEmptyState | src/components/dashboard/todays-goals.tsx:40 | the empty-state test: no hours and no topics targeted; no contract of its own; stated by `DefaultGoalIsNeverEmpty` |
| TodaysGoals.DefaultGoalIsNeverEmpty | src/components/dashboard/todays-goals.tsx:20-40 | the default goal targets 2 topics at 0% and never shows the empty state; with default settings it targets 6 hours |
| WeeklyGoals.CurrentWeeklyGoal | src/components/dashboard/weekly-goals.tsx:17-22 | the first weekly goal starting on this week's Saturday, or none iff there is none |
| WeeklyGoals.Row | src/components/dashboard/weekly-goals.tsx:37-44 | a target renders nothing iff no subject has its id; otherwise that subject's name, colour and the chapter count |
| WeeklyGoals.Card | src/components/dashboard/weekly-goals.tsx:31-67 | the empty state shows iff there is no goal; otherwise "no targets" iff the list is empty, else one row per target, plus revision hours and mock tests |
| WeeklyGoals.DefaultGoalsFillTheWeek | src/lib/data.ts:27-36 | on any day of its week, the default goals show 5 revision hours, 1 mock test and no targets |
| WeeklyGoals.DefaultGoalsExpire | src/lib/data.ts:27-36 | a week later the default goals show the empty state |
| TodaysRoutine.TodaysSchedule | src/components/dashboard/todays-routine.tsx:17-21 | the FIRST entry for today's weekday (no earlier entry has that day), or none iff there is no such entry |
| TodaysRoutine.Capitalize | src/components/dashboard/todays-routine.tsx:25 | the first character upper-cased, the rest kept |
| TodaysRoutine.GetSubject | src/components/dashboard/todays-routine.tsx:23-28 | reserved ids give their capitalised name in #888 without a lookup; other ids give the subject with that id, or none |
| TodaysRoutine.ReservedNames | src/components/dashboard/todays-routine.tsx:24-25 | "break", "prayer" and "other" show as "Break", "Prayer" and "Other" |
| TodaysRoutine.ShowSlot | src/components/dashboard/todays-routine.tsx:50-57 | an unknown subject gives border #ccc and "Unnamed Activity"; a known one shows its colour and name, with those fallbacks for empty values; the times and the activity are copied |
| TodaysRoutine.RoutineCard | src/components/dashboard/todays-routine.tsx:37-61 | the empty state shows iff there is no schedule for today or it has no slots; otherwise one view per slot |
| TodaysRoutine.DefaultRoutineIsEmptyEveryDay | src/lib/data.ts:56-58 | the default routine has an entry for every day and shows the empty state every day |
| RecentSessions.Join | src/components/dashboard/recent-sessions.tsx:22-25 | the subject's name and colour come from the subject with the session's id, or are absent iff there is none; the topic is looked up only in that subject |
| RecentSessions.Recent | src/components/dashboard/recent-sessions.tsx:21-26 | at most ten entries, the i-th being the join of the i-th sorted session |
| RecentSessions.TopTenAreMostRecent | src/components/dashboard/recent-sessions.tsx:20-21 | the shown sessions come from the input, newest first, and none is older than a session left out |
| RecentSessions.RecentSessionsOf | src/components/dashboard/recent-sessions.tsx:17-27 | missing input gives []; otherwise the session array is left sorted in place and the ten newest are joined |
| RecentSessions.ShowName | src/components/dashboard/recent-sessions.tsx:49-50 | a missing or empty name shows the fallback |
| RecentSessions.LabelsOfAJoin | src/components/dashboard/recent-sessions.tsx:49-50 | a session of an unknown subject shows "Unknown Topic" and "Unknown Subject" |
| Header.PageTitle | src/components/header.tsx:20-30 | `getPageTitle`; no contract of its own; stated by `PageTitleMeaning`, `RoutesExclude` and `TitlesOfRoutes` |
| Header.PageTitleMeaning | src/components/header.tsx:20-30 | a path under route i gets route i's title; a path under no route gets "HSC Success Planner" |
| Header.RoutesExclude | src/components/header.tsx:21-28 | no path lies under two routes, so the order of the checks does not matter |
| Header.TitlesOfRoutes | src/components/header.tsx:21-29 | "/subjects/physics" is titled "Subjects & Syllabus", and "/" gets the default title |
| Header.GetInitialsAsWritten | src/components/header.tsx:41-48 | `getInitials` as written; no contract of its own; stated by `InitialsOfTrailingSpaceAsWritten` |
| Header.InitialsOfTrailingSpaceAsWritten | src/components/header.tsx:41-48 | as written, "Ada " gives "AUNDEFINED" |
| Header.Trim | src/components/header.tsx:41-48 | the result has no edge spaces and leaves a name without them unchanged |
| Header.TrimIsSlice | src/components/header.tsx:41-48 | the trimmed name is a slice of the name |
| Header.GetInitials | src/components/header.tsx:41-48 | `getInitials` with the name trimmed first; no contract of its own; stated by `InitialsComeFromTheName`, `InitialsAgreeWithoutEdgeSpaces` and `InitialsOfTrailingSpace` |
| Header.InitialsComeFromTheName | src/components/header.tsx:41-48 | corrected initials: at most two characters, each the upper case of a character of the name; "" for "" |
| Header.InitialsOfTheParts | src/components/header.tsx:41-48 | of the trimmed name: with several parts, the first and last parts are non-empty and the initials are their first characters upper-cased; with one part, its first two characters upper-cased; a name of spaces only gives "" |
| Header.InitialsAgreeWithoutEdgeSpaces | src/components/header.tsx:41-48 | for names without edge spaces the corrected initials equal the original |
| Header.InitialsOfTrailingSpace | src/components/header.tsx:41-48 | corrected, "Ada " gives "AD": the first two letters of its one real part |
| Constants.GenerateTopics | src/lib/constants.ts:4-15 | exactly `count` topics, the i-th named "<prefix> Topic <i+1>", each not started, medium priority, no difficulty, no completion date, no revisions, no time spent, no notes |
| Constants.GenerateChapters | src/lib/constants.ts:17-22 | one chapter per name, in order, each with exactly 5 topics prefixed by the chapter's own name; `topicPrefix` is not used |
| Constants.ChapterNames | src/lib/constants.ts:30 | n names "<subject> Chapter <i+1>" |
| Constants.Nctb | src/lib/constants.ts:24-70 | a template's chapter count equals its number of chapters, each named after the subject |
| Constants.NctbChapterCounts | src/lib/constants.ts:24-70 | five subjects with 12, 11, 12, 11 and 6 chapters, each consistent |
| Constants.WeekDaysAreTheWeek | src/lib/constants.ts:72-80 | seven distinct days from Saturday to Friday, covering every weekday |
| Data.DefaultGoals | src/lib/data.ts:24-43 | no daily or monthly goals; one weekly goal starting on the Saturday of today's week, with no targets, 5 revision hours and 1 mock test; the exam 180 days ahead |
| Data.SampleSubjects | src/lib/data.ts:45-50 | the first three syllabus subjects, each given an id and otherwise unchanged |
| Data.DefaultRoutine | src/lib/data.ts:56-58 | one entry per week day, in order, each with no slots |
| Dates.StartOfWeek | src/components/dashboard/weekly-goals.tsx:17 | the week start is on the requested weekday, at most six days back |
| Dates.WeekStartIsShared | src/components/dashboard/weekly-goals.tsx:17 | every day of a Saturday week has that same week start |
| Dates.DifferenceInSeconds | src/components/dashboard/countdown.tsx:26 | the difference is the millisecond gap truncated toward zero to whole seconds |
| JsMath.RoundPercent | src/components/dashboard/subject-progress-list.tsx:19 | round(100*part/whole) to the nearest integer, halves up, between 0 and 100 |
| JsMath.JsRem | src/components/persistent-timer.tsx:11 | JavaScript `%` against a positive divisor: Dafny's `%` for non-negative operands, in (-b, 0] for negative ones |
| Text.Split | src/components/header.tsx:43 | `split(' ')`: at least one part, none containing a space; one part iff the name has no space |
| Text.SplitLast | src/components/header.tsx:45 | the last part is a suffix of the name, preceded by a space when there are several parts |
| Text.Pad2 | src/components/persistent-timer.tsx:12-14 | `padStart(2, '0')`: never shorter than 2, never truncates, and only adds zeros in front |
| Text.Upper | src/components/header.tsx:45-47 | `toUpperCase` character by character, same length |
| Lookup.Find | src/components/dashboard/monthly-goals.tsx:22 | `find`: the first element satisfying the predicate, or none iff none does |

## Left out

- Persistence I/O: `localStorage` and its JSON parsing, with the swallowed exceptions. The
  stored record is an optional-field value (`StoredTimerState`); a value of the wrong type in
  storage is not modelled.
- React scheduling: effects, `setInterval` and closures over stale state. Each operation, each
  tick and the settings sync is one atomic step that receives `now`. When the settings-sync effect
  runs after a transition is stated by `Timer.SettleAsWritten` and `Timer.Settle`. Its
  mount-time run is `Timer.Mounted`. The main timer effect's runs are the ordinary `Tick`.
- The state setter's function form (`setState(s => …)`) against the direct form in
  `endWorkSession`: both are modelled on the current state, since without interleaving they
  agree.
- Clocks: `Date.now()` and `new Date()` are parameters in milliseconds. Time zones, daylight
  saving, and the civil calendar behind `format(…, 'yyyy-MM')` are left out; month keys are
  strings supplied by the caller.
- The widget's drag handling and positioning, the cards' markup, styling and icons.
- `toFixed`: the weekly hours are modelled as a minute total, and the milestone percentage
  as a `real`.
- Firestore bindings, the AI flows and the static syllabus table: they supply inputs that the
  model takes as values.
- `nanoid` ids: generated topics and chapters get empty ids, and `Data.SampleSubjects` takes
  an id function.
- JsMath.RoundPercent: exact rounding of the rational 100*part/whole; IEEE double rounding
  can differ on ties.
- Text.Upper: upper-cases ASCII letters only, not the full Unicode mapping of `toUpperCase`.
- Header.Trim: strips spaces only, where `String.prototype.trim` strips all white space.
- PersistentTimer.SessionTypeInfoTells: the `default` branch of `getSessionTypeInfo` is not
  modelled, since a typed `SessionType` never reaches it.
- PersistentTimer.FormatTimeRoundTrip: the inverse is the model's own reader of the
  `digits:two digits` format; the application has no such parser.
- MonthlyGoals.SubjectPercent: a missing `chapters` list (`subject.chapters || []`) is an
  empty list, since the typed record always has one.
- MonthlyGoals.Row: the milestone list looks subjects up with `subjects.find` and would throw
  on a missing list; the model always has a list.
- JsMath.JsRem: for a negative dividend only the range is stated, not the exact value.
- The visibility flag's own persistence effect (use-timer.tsx, lines 81-83) is part of the
  I/O left out above.

## Findings

| source | as written | input that shows it | evidently intended | confidence | as-written member | corrected member |
|---|---|---|---|---|---|---|
| src/hooks/use-timer.tsx:127 | The settings-sync effect lists `state.isActive` among its dependencies, so it also runs right after `pauseTimer` and sets `elapsedTime` to 0. | Default settings, start at t = 1 s, pause at t = 601 s: the clock shows 15:00, then the sync brings it back to 25:00. | The effect rebases an idle phase only when the settings or the phase change ("update duration when settings change"), so a pause keeps its progress. This also stops a run's end from applying settings that were changed during the run (`Timer.SettingsOfARunWaitForTheNextChange`). | not executed | Timer.PauseLosesProgressAsWritten | Timer.PauseKeepsProgress |
| src/components/header.tsx:43-46 | `name.split(' ')` yields an empty part for a leading or trailing space; `names[k][0]` on it is `undefined`, which the template prints as "undefined". | The name "Ada " gives "AUNDEFINED". | Initials from the name's real parts, as for the trimmed name. | not executed | Header.InitialsOfTrailingSpaceAsWritten | Header.InitialsComeFromTheName |
