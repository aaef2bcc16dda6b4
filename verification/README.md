# Smart Study Planner — task store and Pomodoro timer in Dafny

This project models the core of Smart Study Planner, a single-page study
planner whose whole logic sits in `script.js`. The model covers three parts.

- **The task store.** The module-level `tasks` list and `selectedTaskId`
  become the class `Store.TaskStore`. Its methods are add, toggle, edit,
  delete, select, import, and the timer's "mark the linked task done". Each
  method is tied to a pure function in `Tasks` (`Added`, `Toggled`,
  `Retitled`, `Redescribed`, `Removed`, `MarkedDone`), and the lemmas are
  proved about those functions. The ghost field `stored` stands for what
  local storage holds. It changes exactly where the page calls `saveTasks`.
- **The read-only projections of `render`.** These are the
  tag/status/search filter, the date sort, the distinct-tag list and the
  completion counts (`Query`).
- **The Pomodoro timer.** The variables `pomState`, `onBreak`,
  `pomRemaining` and `pomInterval` become the class `Engine.PomodoroTimer`.
  Its methods are tied to the pure transition functions of `Pomodoro`. The
  multi-second behaviour is proved over `Pomodoro.Elapse`, which delivers
  one tick per second while an interval is scheduled. Examples are a whole
  work phase, a whole break, and a full cycle. `TimeFormat.FormatTime`
  models the `mm:ss` display.

Inputs from outside the page logic are parameters:

- the answers of `confirm` and `prompt` (`bool`, `Option<string>`);
- the id that `uid()` would generate, required not to be in use yet;
- the creation timestamp and the export timestamp (`int`);
- the parsed import file (`Store.ImportFile`);
- the parsed minute fields (`Option<int>`, where `None` means `parseInt`
  gave `NaN`);
- the form contents (`Tasks.Draft`).

Dates (`YYYY-MM-DD`) are integer day numbers. The one-second
`setInterval` is the flag `intervalActive`. Only a scheduled interval can
call `Tick`.

The model keeps these quirks of the code:

- While the break runs, `pomState` stays `running` (`pomodoroCycle` never
  changes it). Pausing a break and starting again resumes the break
  (`Pomodoro.PauseThenStart`).
- A configured length can be negative (`parseInt("-3") || 25` is `-3`), so
  the remaining time is an `int`, not a count that never goes below zero.
  The `<= 0` test then ends the phase on the first tick
  (`Pomodoro.NegativeWorkEndsAtFirstTick`).
- `deleteTask` itself clears the selection when it matches. `selectTask`
  stores any id, and importing keeps the selection, so the link can
  dangle. Completion looks the link up and ignores an id no task has.
- `loadTasks` does not fail open: `JSON.parse` of bad stored data throws.
  The constructor therefore takes the already-parsed saved list, or `None`
  when nothing is saved.
- Export refuses an empty list, and import takes any array as `tasks`
  without checking its elements.
- Cancelling the description prompt of `editTask` leaves the new title in
  memory but unsaved.
- Adding a task with a blank title just returns. There is no error value.

The sort is modelled as a stable insertion sort with the page's comparator.
Only the ordering and the permutation are claimed, not stability.

## Model

| member | source | states |
|---|---|---|
| `Seqs.Filter` | script.js:66-71 | the result holds exactly the elements of the input that satisfy the predicate, and it is never longer than the input |
| `Seqs.FilterIsSubsequence` | script.js:170 | a filter keeps its survivors in their original relative order |
| `Seqs.FilterAll` | script.js:170 | a filter that rejects nothing returns its input unchanged |
| `Seqs.FilterShrinks` | script.js:170 | a filter that rejects some element is strictly shorter than its input |
| `Seqs.FilterSplit` | script.js:116-118 | two filters that divide one filter's elements between them together hold the same multiset and the same count |
| `Seqs.FilterSamePredicate` | script.js:117 | filters by predicates that agree on every element give the same list |
| `Text.Trim` | script.js:142 | `trim` gives empty exactly for all-white-space input; otherwise it is the slice between the leading and trailing white space, and it neither starts nor ends with white space |
| `Text.Lower` | script.js:70 | lower-casing keeps the length and lower-cases each ASCII letter |
| `Text.ContainsIffOccurs` | script.js:70 | `includes` holds exactly when the needle occurs at some position |
| `Text.NatToString` | script.js:223 | `toString` of a non-negative integer gives decimal digits whose value is the number, without leading zeros |
| `Text.IntToString` | script.js:223 | `toString` of a non-negative integer is a non-empty string of decimal digits whose value is the number (so 0 gives "0"); of a negative one, a minus sign followed by the digits of its magnitude, with no leading zero |
| `Text.PadStart2` | script.js:223 | `padStart(2, '0')` adds zeros on the left up to length two and leaves longer strings unchanged |
| `Text.DecimalValueZeroPrefix` | script.js:223 | a leading zero does not change a decimal value |
| `Text.PadStart2Value` | script.js:223 | padding a digit string keeps its value |
| `Tasks.IsLinked` | script.js:228 | a selection links a task exactly when it is a truthy id: neither absent nor the empty string |
| `Tasks.FindIndex` | script.js:152 | `find` by id gives the first task carrying that id, or nothing exactly when no task has it |
| `Tasks.NewTask` | script.js:144 | a new task has its title, description and tag trimmed, a blank tag as null, and is not done |
| `Tasks.Added` | script.js:141-145 | a blank title leaves the list unchanged; otherwise exactly the new task is appended at the end with a non-empty title |
| `Tasks.Toggled` | script.js:151-153 | only the first task with the id changes, only its done flag flips, and an unknown id changes nothing |
| `Tasks.Retitled` | script.js:158-161 | the first task with the id takes the trimmed answer as title unless it is empty, and nothing else changes |
| `Tasks.Redescribed` | script.js:162-164 | the first task with the id takes the trimmed answer as description, and nothing else changes |
| `Tasks.MarkedDone` | script.js:229-231 | the first task with the id becomes done, and no other task or field changes |
| `Tasks.Removed` | script.js:170 | no task with the id remains, every other task stays, an unknown id leaves the list as it was, and exactly the copies carrying the id are dropped (the length falls by their number) |
| `Tasks.RemovedKeepsOrder` | script.js:170 | deletion keeps the remaining tasks in their relative order |
| `Tasks.ToggleTwice` | script.js:151-153 | toggling the same id twice restores the list |
| `Tasks.SameIdsSameFind` | script.js:158-164 | edits that keep ids in place do not change which task `find` returns |
| `Tasks.IdsStayUnique` | script.js:141-173 | with a fresh id, adding keeps ids unique, and so do toggling, editing, completing and deleting |
| `Tasks.RemovedKeepsUnique` | script.js:170 | deleting keeps ids unique |
| `Tasks.TitlesStayNonEmpty` | script.js:141-173 | titles that are non-empty stay non-empty through add, edit, toggle, complete and delete |
| `Query.Needle` | script.js:64 | the compared search text is empty exactly when the typed text is all white space |
| `Query.Matches` | script.js:66-71 | with no tag, status or search set every task matches; a matching task carries the chosen tag, has the chosen done state, and its lower-cased title or description contains the lower-cased search text |
| `Query.Compare` | script.js:72-78 | two dated tasks compare by date (negative, zero or positive as the first is earlier, the same day or later); a dated task comes before an undated one; two undated tasks are equal |
| `Query.Filtered` | script.js:66-71 | the filtered tasks are exactly the tasks that meet every active criterion |
| `Query.CompareIsConsistent` | script.js:72-78 | the comparator is reflexive, antisymmetric and transitive |
| `Query.Insert` | script.js:72-78 | inserting into a sorted list keeps it sorted and adds exactly that task |
| `Query.SortByDate` | script.js:72-78 | the sorted list is in comparator order and is a permutation of its input |
| `Query.Query` | script.js:66-78 | the listed tasks are a permutation of the filtered tasks |
| `Query.QueryMembers` | script.js:66-71 | a task is listed exactly when it is in the store, has the exact tag, has the chosen status, and contains the trimmed lower-cased search text in its lower-cased title or description |
| `Query.QueryIsPermutation` | script.js:66-78 | the listed tasks are the filtered ones reordered, and the filtered ones keep the store's order |
| `Query.QueryOrder` | script.js:72-78 | every dated task precedes every undated one, and dates never decrease along the list |
| `Query.StatusPartition` | script.js:68-69 | for any tag and search, the "done" and "pending" lists split the list unfiltered by status, with only done and only pending tasks respectively |
| `Query.StatusPartitionById` | script.js:68-69 | with unique ids, no id is in both lists and their ids together are the ids of the whole list |
| `Query.SplitIds` | script.js:68-69 | two lists of opposite status that split a list of tasks with unique ids share no id and together carry its ids |
| `Query.StatsOf` | script.js:115-118 | completed counts the done tasks, pending counts the not-done tasks and is never negative, and completed plus pending is total |
| `Query.StatsMatchQuery` | script.js:116-118 | the counts equal the lengths of the unfiltered "done" and "pending" lists |
| `Query.DistinctTags` | script.js:109 | the tag list has no duplicates and holds exactly the non-empty tags in use |
| `Query.TagsAfter` | script.js:109 | collecting tags keeps those already seen first and adds each new non-empty tag once |
| `Store.ExportOf` | script.js:189-191 | export gives nothing for an empty list, and otherwise a snapshot holding exactly the tasks |
| `Store.ExportThenImport` | script.js:189-211 | exporting a non-empty list and importing that file restores the same list |
| `Store.TaskStore.constructor` | script.js:50 | the list starts as the saved list or empty, with no selection |
| `Store.TaskStore.AddTask` | script.js:141-146 | the list becomes `Added` of the old list; the task is added and saved exactly when the title is not blank |
| `Store.TaskStore.ToggleDone` | script.js:151-155 | the list becomes `Toggled`; it is saved only when the id is found |
| `Store.TaskStore.EditTask` | script.js:157-166 | a missing id or a cancelled title prompt changes nothing; a cancelled description prompt leaves the new title unsaved; otherwise both edits apply and are saved |
| `Store.TaskStore.DeleteTask` | script.js:168-173 | without confirmation nothing changes; with it the list becomes `Removed`, the selection is cleared exactly when it equals the id, and the list is saved |
| `Store.TaskStore.SelectTask` | script.js:175-179 | the id is selected even when no task has it, and the list is untouched |
| `Store.TaskStore.ImportTasks` | script.js:204-211 | a confirmed task array replaces the list and is saved; anything else changes nothing; the selection is kept |
| `Store.TaskStore.CompleteSelected` | script.js:228-233 | with a linked selection the first task with that id is marked done, and storage is written exactly when the list changed |
| `TimeFormat.JsRem60` | script.js:223 | the remainder has the sign of the dividend, is smaller than 60 in magnitude, and differs from the dividend by a multiple of 60 |
| `TimeFormat.FormatTime` | script.js:223 | the text is at least five characters; for a non-negative count the colon is third from the end (what surrounds it is stated by `FormatTimeRoundTrip` and `FormatTimeNegative`) |
| `TimeFormat.FormatTimeRoundTrip` | script.js:223 | for non-negative seconds the text is minutes, a colon and two digits, and reading them back gives the seconds |
| `TimeFormat.FormatTimeNegative` | script.js:223 | every negative count shows as a minus sign and the digits of the floored minutes' magnitude, a colon, then "00" when JavaScript's remainder is zero and otherwise a minus sign and the digits of its magnitude |
| `TimeFormat.FormatTimeWidth` | script.js:223 | under 100 minutes the text is exactly five characters |
| `TimeFormat.FormatDefaultWork` | script.js:223 | 25 minutes shows as "25:00" |
| `TimeFormat.FormatNegative` | script.js:223 | -181 seconds shows as "-4:-1", with JavaScript's signs |
| `Pomodoro.Seconds` | script.js:258 | a missing or zero minute value falls back to the default, any other value is kept, and both are times 60 |
| `Pomodoro.Initial` | script.js:32-34 | the timer starts stopped, not on a break, at 25 minutes |
| `Pomodoro.AfterStart` | script.js:254-268 | start is a no-op while running or when the no-task confirmation is declined; from stopped it starts a fresh work phase; from paused it resumes with the same phase and time; the invariant is kept |
| `Pomodoro.AfterPause` | script.js:270-275 | pause acts only when running, stops ticks, and keeps the remaining time and phase |
| `Pomodoro.AfterReset` | script.js:277-284 | reset yields stopped, not on a break, the work length, and no interval |
| `Pomodoro.AfterCycle` | script.js:225-252 | the end of work starts the break with the break length and a fresh interval, still running; the end of a break resets |
| `Pomodoro.AfterTick` | script.js:246-251 | a tick counts one second down, and ends the phase when the count reaches zero or below |
| `Pomodoro.TasksAfterTick` | script.js:227-233 | a tick changes tasks only when it ends a work phase with a linked task, and then only by marking that task done |
| `Pomodoro.Elapse` | script.js:246-251 | with no interval running nothing changes; seconds passing keep the timer valid and never add or remove tasks |
| `Pomodoro.ElapseAdds` | script.js:246-251 | elapsed seconds compose |
| `Pomodoro.CountDown` | script.js:262-266 | while more seconds remain than elapse, only the count changes |
| `Pomodoro.WorkPhaseEnds` | script.js:225-251 | a work phase with n seconds left changes nothing but the count before second n; at second n the break runs and the linked task is done |
| `Pomodoro.BreakPhaseEnds` | script.js:239-244 | a break with m seconds left ends after m seconds in the reset state, with tasks untouched |
| `Pomodoro.FullCycle` | script.js:225-268 | after a start from stopped, work plus break seconds reset the timer, and the only task change is the linked task marked done |
| `Pomodoro.NoTicksUnlessRunning` | script.js:270-275 | while paused or stopped, elapsed time changes nothing |
| `Pomodoro.PauseThenStart` | script.js:254-275 | pausing then starting gives back the running timer, so a paused break resumes as a break |
| `Pomodoro.NegativeWorkEndsAtFirstTick` | script.js:258-266 | a negative work length ends the work phase on the first tick |
| `Engine.PomodoroTimer.constructor` | script.js:32-42 | the timer fields start in the initial state |
| `Engine.PomodoroTimer.Start` | script.js:254-268 | the fields become `AfterStart` of the old ones, the link taken from the store's selection, and the invariant is kept |
| `Engine.PomodoroTimer.Pause` | script.js:270-275 | the fields become `AfterPause` of the old ones |
| `Engine.PomodoroTimer.Reset` | script.js:277-284 | the fields become `AfterReset` |
| `Engine.PomodoroTimer.Cycle` | script.js:225-252 | the fields become `AfterCycle`; at the end of work the store's list becomes `MarkedDone` of the selected id, and it is saved only if it changed |
| `Engine.PomodoroTimer.Tick` | script.js:262-267 | the fields become `AfterTick`, and the store's list becomes `TasksAfterTick` |

## Left out

- DOM rendering, HTML markup, the select options, input clearing and focus, and `document.title` text: presentation only.
- `drawChart` and Chart.js: a foreign library. Its data is the pair `StatsOf` computes.
- Theme toggle, notes save/load and `init`'s theme/notes loading: local-storage I/O with no logic.
- JSON serialisation, `localStorage`, `FileReader`, `Blob` and URL downloads. Storage is the ghost `stored` snapshot, and an import file is its parsed form. A file that fails to parse and one whose `tasks` is not an array are the same `Malformed` case.
- `uid()`, `Date.now` and `new Date().toISOString()`: time and randomness, so they are parameters.
- Parsing date strings with `new Date`: dates are day numbers. An invalid date string, which makes the comparator `NaN`, is not modelled.
- Real `setInterval` timing: `Tick` is an explicit method, and `Pomodoro.Elapse` models seconds passing.
- `Text.Lower`: lower-cases ASCII letters only, not the full Unicode case mapping of `toLowerCase`.
- Imported tasks are typed records. Fields of other JSON types (a missing title, a numeric tag) are not modelled.
- `Query.SortByDate`: stability is not stated. The model's insertion sort happens to be stable, but only ordering and permutation are claimed.
- Numbers are unbounded integers, not IEEE doubles: integer precision loss above 2^53 and `toString` switching to exponent form from 1e21 are not modelled. This affects `Pomodoro.Timer.remaining`, `Pomodoro.Seconds` and `TimeFormat.FormatTime` (script.js:33, 237, 247, 258, 263, 281).
- Failed `localStorage` writes: `setItem` can throw (for example when the quota is full), but every update of the ghost `stored` snapshot assumes the write succeeded (script.js:145-146 and the other `saveTasks` calls).
- Object identity of task records: the list holds values, and updates replace the element at the index `find` would return. No other code holds references to task objects, so this is unobservable.
