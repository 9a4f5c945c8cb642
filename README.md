# Smart Study Planner — a verified model of the planner core

The Smart Study Planner is a single-page browser app that keeps a list of
study tasks (title, notes, priority, optional due date, completion flag,
creation time) and a list of free-form notes. Its behaviour lives in one
script, `assets/app.js`: the submit handlers of the task and note dialogs,
the delete and completion-checkbox handlers, the filter/search/sort pipeline
that decides which tasks and notes are shown and in which order, the
statistics panel, and the date helpers that classify a due date as overdue,
due today, soon or later.

This project models that core in Dafny and proves what it promises:

- `wrappers.dfy` — `Option`, standing for `undefined` / `??` and for `find`.
- `seqs.dfy` — the array operations the script is built from (`filter`,
  the replacing `map`, `find`, `some`, a comparator `sort`) as functions on
  sequences, with their laws.
- `text.dfy` — `trim`, `toLowerCase`, `includes` and the title comparison.
- `entities.dfy` — tasks, notes, priorities and `priorityRank`.
- `dates.dfy` — due dates as day numbers, `isOverdue`, `isToday` and
  `formatDueLabel`.
- `query.dfy` — the task view of `renderTasks`, the note view of
  `renderNotes` and the counters of `updateStats`.
- `store.dfy` — the mutable `state` as a class `Planner` whose methods are
  the event handlers, with the submission semantics as functions on the old
  lists and lemmas about them.
- `timezone.dfy` — the date helpers as the browser evaluates them, with a
  time-zone offset, for the finding below.

Dates are day numbers (days since 1970-01-01) and "today" is a parameter;
`'9999-12-31'`, the key the deadline sort gives undated tasks, is the day
number `Dates.UndatedKey`. Instants (`created`, `updated`, `Date.now()`) are
integers passed in as `now`. The fresh id `uid()` would generate is passed
in as `freshId`.

`formatDueLabel` (assets/app.js:306-316) never looks at `completed`, so a
completed task keeps its due label; `Dates.FormatDueLabel` depends on the due
date and today only.

## Model

| member | source | states |
|---|---|---|
| Seqs.Filter | assets/app.js:104-113 | `filter` never grows the list and keeps exactly the elements that pass the predicate |
| Seqs.FilterCounts | assets/app.js:104-113 | `filter` keeps each passing element exactly as often as it occurs, and no failing element |
| Seqs.FilterIsSubsequence | assets/app.js:167 | a filtered list keeps the survivors in their original order |
| Seqs.FilterKeepsAll | assets/app.js:105 | filtering with a predicate every element passes returns the list unchanged |
| Seqs.FilterFilter | assets/app.js:104-113 | two chained `filter` calls equal one filter by the conjunction |
| Seqs.FilterDisjointCount | assets/app.js:208-212 | counts of two never-overlapping filters add up to the count of their disjunction |
| Seqs.FilterKeepsDistinct | assets/app.js:167 | filtering keeps ids unique |
| Seqs.ReplaceWhere | assets/app.js:253 | the replacing `map` keeps the length and replaces exactly the matching elements |
| Seqs.ReplaceWhereKeepsOthers | assets/app.js:253 | after the replacing `map`, the non-matching elements are exactly the old ones, in order |
| Seqs.ReplaceWhereKeepsDistinct | assets/app.js:290 | replacing by an element with the same id keeps ids unique |
| Seqs.AddFreshKeepsDistinct | assets/app.js:255 | `push` or `unshift` of an element with a new id keeps ids unique |
| Seqs.Find | assets/app.js:247-248 | `find` returns nothing exactly when no element matches, and otherwise the first match |
| Seqs.Any | assets/app.js:251 | `some` holds exactly when some element matches |
| Seqs.AnyIffFind | assets/app.js:247-251 | `some` and `find` with the same predicate agree |
| Seqs.Insert | assets/app.js:115-124 | one step of the stable sort: the element goes after every element that may precede it (its properties are the lemmas below) |
| Seqs.InsertPermutes | assets/app.js:115-124 | inserting adds exactly one copy of the element and keeps the rest |
| Seqs.SortBy | assets/app.js:115-124 | `sort` with a comparator, as a stable insertion sort (its properties are the lemmas below) |
| Seqs.SortByPermutes | assets/app.js:115-124 | the sort returns a permutation of its input |
| Seqs.SortBySorted | assets/app.js:115-124 | with a total, transitive comparator the sort returns an ordered permutation |
| Seqs.InsertStable | assets/app.js:115-124 | inserting into a sorted list puts the element after every element tied with it |
| Seqs.SortByStable | assets/app.js:115-124 | the sort is stable: elements the comparator ranks level keep their input order |
| Text.LeadingSpace | assets/app.js:237 | the leading run counted is all white space and is followed by a non-space character or the end |
| Text.TrailingSpaceStart | assets/app.js:237 | everything from the returned index on is white space, and the character before it is not |
| Text.Trim | assets/app.js:237-238 | `trim` returns the middle of the string with white space only around it, empty exactly for an all-white-space string |
| Text.Lower | assets/app.js:105 | `toLowerCase`, character by character (ASCII letters only; see Left out) |
| Text.Includes | assets/app.js:105 | `includes`, as a scan over the starting positions (its meaning is `IncludesIff`) |
| Text.LowerIdempotent | assets/app.js:78 | lower-casing an already lower-cased string changes nothing |
| Text.IncludesIff | assets/app.js:105 | `includes` holds exactly when the needle occurs at some position; the empty needle always occurs |
| Text.LexCompare | assets/app.js:119 | the title comparison returns -1, 0 or 1 |
| Text.LexCompareAntisymmetric | assets/app.js:119 | swapping the titles flips the sign; 0 only for equal titles |
| Text.LexCompareTransitive | assets/app.js:119 | the title comparison is transitive |
| Entities.PriorityRank | assets/app.js:300 | `priorityRank` is between 1 and 3, 3 exactly for high and 1 exactly for low |
| Entities.PriorityRankInjective | assets/app.js:300 | distinct priorities have distinct ranks |
| Dates.UndatedKeyIsLastDay | assets/app.js:122 | the undated sort key is the day number of 9999-12-31 and the epoch is day 0 |
| Dates.IsOverdue | assets/app.js:61 | `isOverdue` on day numbers: a due date strictly before today (its properties are `DueLabelAgrees`) |
| Dates.IsToday | assets/app.js:62 | `isToday` on day numbers: a due date equal to today (its properties are `DueLabelAgrees`) |
| Dates.FormatDueLabel | assets/app.js:306-316 | the label is "No deadline" without a date, overdue by `today - due` days before today, "Due today" on today, "Due tomorrow" the next day, "Due in n d" for 2..7 days and the date itself beyond a week |
| Dates.DueLabelAgrees | assets/app.js:61-62 | `isOverdue` and `isToday` agree with the label's kind, are never both true, and are false without a due date |
| Query.MatchesTaskSearch | assets/app.js:105 | the search clause of `renderTasks`: empty search, or the lower-cased title or notes include it |
| Query.PassesFilter | assets/app.js:106-112 | the chip clause of `renderTasks` (its meaning is `PassesFilterMeaning`) |
| Query.FilterTasks | assets/app.js:104-113 | the two chained filters of `renderTasks` (their meaning is `FilterTasksSpec`) |
| Query.CompareTasks | assets/app.js:115-124 | the comparator of `renderTasks` for each sort key (its properties are `TaskOrderIsTotalPreorder` and `TaskViewSpec`) |
| Query.TaskView | assets/app.js:104-124 | the list `renderTasks` displays: filtered, then sorted (its properties are `TaskViewSpec` and `TaskViewKeepsTies`) |
| Query.NoteView | assets/app.js:176-180 | the list `renderNotes` displays (its properties are `NoteViewSpec` and `NoteViewKeepsStoredOrder`) |
| Query.ComputeStats | assets/app.js:208-212 | the four counters of `updateStats` (their properties are `StatsBounds` and `StatsMatchFilters`) |
| Query.TaskOrderIsTotalPreorder | assets/app.js:115-124 | each sort key gives a total, transitive comparator |
| Query.FilterTasksSpec | assets/app.js:104-113 | the filtered tasks are, in stored order, exactly those matching the search and the chip |
| Query.PassesFilterMeaning | assets/app.js:106-112 | what each chip lets through; undated tasks are never overdue or due today |
| Query.EmptyTaskSearchKeepsAll | assets/app.js:105 | an empty search matches every task |
| Query.TaskViewSpec | assets/app.js:104-124 | the displayed tasks are a permutation of the filtered ones, ordered high to low priority, newest first, by title, or earliest due date first |
| Query.TaskViewSorted | assets/app.js:115-124 | the displayed tasks are ordered by the selected comparator |
| Query.DatedBeforeUndated | assets/app.js:121-122 | under the deadline key every dated task is listed before every undated one |
| Query.UndatedLast | assets/app.js:122 | in a list ordered by due key, dated tasks precede undated ones |
| Query.SearchIgnoresCase | assets/app.js:105 | a task matches the same searches whatever the case of its title and notes |
| Query.TaskViewKeepsTies | assets/app.js:115-124 | tasks the selected comparator ranks level are displayed in their filtered order |
| Query.PriorityViewKeepsStoredOrder | assets/app.js:117 | sorted by priority, the displayed tasks of each priority keep their stored order |
| Query.NoteViewKeepsStoredOrder | assets/app.js:180 | notes updated at the same instant are displayed in their stored order |
| Query.NoteViewSpec | assets/app.js:176-180 | the displayed notes are exactly those matching both searches, most recently updated first |
| Query.StatsBounds | assets/app.js:208-212 | the completed, due-today and overdue counters never add up to more than the total |
| Query.StatsMatchFilters | assets/app.js:208-212 | total, completed and overdue equal what the matching chips list; due-today is at most what the today chip lists |
| Store.IncomingTask | assets/app.js:236-249 | the incoming task has the trimmed title and the form fields, medium priority by default, and keeps `completed` and `created` of the first stored task with that id (or is open and created now) |
| Store.IncomingNote | assets/app.js:275-286 | the incoming note has the trimmed title and content, was updated now, and keeps `created` of the first stored note with that id (or was created now) |
| Store.SubmittedId | assets/app.js:236 | the hidden id field, or a fresh id when it is empty |
| Store.EditTaskForm | assets/app.js:221-229 | the task form pre-filled from a stored task (used by `ResubmitUnchangedTask`) |
| Store.TasksAfterSubmit | assets/app.js:233-256 | the task list after `onTaskSubmit` (its meaning is the SubmitTask lemmas below) |
| Store.SubmitTaskEmptyTitle | assets/app.js:238 | a title that trims to nothing leaves the task list unchanged |
| Store.SubmitTaskEditsInPlace | assets/app.js:251-253 | saving under a stored id keeps the length and puts the incoming task at every position with that id |
| Store.SubmitTaskKeepsOthers | assets/app.js:251-253 | saving under a stored id leaves the tasks with other ids, in order, as they were |
| Store.SubmitTaskAppends | assets/app.js:251-255 | saving under a new id appends an open task created now |
| Store.SubmitTaskKeepsDistinct | assets/app.js:251-256 | a submission keeps task ids unique |
| Store.NotesAfterSubmit | assets/app.js:272-293 | the note list after `onNoteSubmit` (its meaning is the SubmitNote lemmas below) |
| Store.SubmitNoteEmptyTitle | assets/app.js:277 | a title that trims to nothing leaves the note list unchanged |
| Store.SubmitNoteEditsInPlace | assets/app.js:288-290 | saving under a stored id keeps the length and puts the incoming note at every position with that id |
| Store.SubmitNoteKeepsOthers | assets/app.js:288-290 | saving under a stored id leaves the notes with other ids, in order, as they were |
| Store.SubmitNotePrepends | assets/app.js:288-292 | saving under a new id puts a note created and updated now in front |
| Store.SubmitNoteKeepsDistinct | assets/app.js:288-293 | a note submission keeps note ids unique |
| Store.OnlyTaskWithId | assets/app.js:247-248 | with unique ids, a stored task is the first and only one with its id |
| Store.ResubmitUnchangedTask | assets/app.js:221-256 | opening a stored task for editing and saving it unchanged leaves the task list as it was |
| Store.Planner.constructor | assets/app.js:46-53 | the initial state holds the loaded lists, no search, the "all" chip and the deadline sort |
| Store.Planner.SetSearch | assets/app.js:78 | the global search is stored trimmed and lower-cased |
| Store.Planner.SetNoteSearch | assets/app.js:79 | the note search is stored trimmed and lower-cased |
| Store.Planner.SetSortBy | assets/app.js:81 | the sort selector sets the sort key |
| Store.Planner.SetFilter | assets/app.js:83-88 | a chip sets the filter |
| Store.Planner.SubmitTask | assets/app.js:233-260 | the task list becomes `TasksAfterSubmit` of the old list |
| Store.Planner.SetCompleted | assets/app.js:158-162 | the checkbox changes only that task's completion flag and keeps ids unique |
| Store.Planner.DeleteTask | assets/app.js:165-170 | the new list is the old one filtered by "id differs": every task with the id goes, every other task stays with its multiplicity and in order, an unknown id changes nothing, ids stay unique |
| Store.Planner.SubmitNote | assets/app.js:272-297 | the note list becomes `NotesAfterSubmit` of the old list |
| Store.Planner.DeleteNote | assets/app.js:197-202 | the new list is the old one filtered by "id differs": every note with the id goes, every other note stays with its multiplicity and in order, an unknown id changes nothing, ids stay unique |
| LocalTime.ParsedDueDay | assets/app.js:309 | a stored due date parsed and moved to local midnight is the day before west of UTC and the same day otherwise |
| LocalTime.TodayIso | assets/app.js:60 | `todayISO()` is yesterday's date east of UTC and today's otherwise |
| LocalTime.DiffDaysAsWritten | assets/app.js:308-310 | `diffDays` is the parsed due day minus today |
| LocalTime.IsOverdueAsWritten | assets/app.js:61 | `isOverdue` in the browser: the parsed due date's local midnight is before today's |
| LocalTime.IsTodayAsWritten | assets/app.js:62 | `isToday` in the browser: the stored date equals `todayISO()` |
| LocalTime.DueLabelAsWritten | assets/app.js:306-316 | `formatDueLabel` in the browser: the label `diffDays` away, or the stored date beyond a week |
| LocalTime.StatsAsWritten | assets/app.js:208-212 | `updateStats` with the browser's date helpers |
| LocalTime.FarDueShowsStoredDate | assets/app.js:315 | more than eight days ahead, the browser's label shows the stored date at any offset |
| LocalTime.AsWrittenAgreesInUtc | assets/app.js:60-62 | in UTC the browser's `isOverdue`, `isToday` and label equal the day-number ones |
| LocalTime.DueTodayIsOverdueWestOfUtc | assets/app.js:60-62 | west of UTC a task due today is both "today" and "overdue" and is labelled "Overdue 1d" |
| LocalTime.DueYesterdayIsTodayEastOfUtc | assets/app.js:60-62 | east of UTC a task due today is not "today", while one due yesterday is both "today" and "overdue" |
| LocalTime.StatsDoubleCountAsWritten | assets/app.js:208-212 | in UTC-5 one open task due today is counted as due today and as overdue, exceeding the total |

## Left out

- The DOM: rendering of list items, empty-state panels, dialogs, focus handling, `confirm` prompts, `capitalize` and the "Created"/"Updated" text; a cancelled `confirm` is simply not a call to the delete method.
- `load`, `save`, `localStorage` and JSON: the lists are taken as already loaded, and every change is assumed persisted; a corrupt store falling back to an empty list is not modelled.
- `uid()` and `Date.now()` are inputs (`freshId`, `now`); the two `Date.now()` reads of the note handler are one `now`.
- The clock and time zone in the main model: dates are day numbers relative to a given `today`, so daylight saving time and `Math.round` over unequal days are not modelled; the fixed-offset browser behaviour is modelled separately in `LocalTime`.
- The minimum date of the due input (assets/app.js:76) is a browser form constraint and is not modelled.
- Text.LexCompare: `localeCompare` is modelled as character-code order; locale collation (case and accent folding) is not modelled.
- Text.Lower: only ASCII letters are lower-cased; full Unicode case mapping is not modelled.
- Query.CompareTasks: the deadline key compares day numbers where the code compares `YYYY-MM-DD` strings; the two orders agree for four-digit years.
- Entities.Priority: priorities are the three known values; an unknown priority string, which `priorityRank` ranks 1, cannot be represented.
- Query.TaskFilter and Query.SortKey: only the values the chips and the selector offer; an unknown filter behaves as "all" and an unknown sort as "deadline" in the code and cannot be represented here.
- Store.Planner.SetCompleted: the checkbox mutates the shared task object; the model addresses it by its index in the stored list, so aliasing of the same object under duplicate ids is not modelled.
- Store.Planner.SubmitTask, Store.Planner.SubmitNote, Store.Planner.SetCompleted, Store.Planner.DeleteTask and Store.Planner.DeleteNote: the re-render after a change is not modelled; what is displayed afterwards is `Query.TaskView`, `Query.NoteView` and `Query.ComputeStats` of the new state and settings.

## Findings

| source | as written | input that shows it | evidently intended | confidence | as-written member | corrected member |
|---|---|---|---|---|---|---|
| assets/app.js:60-62 | `new Date('YYYY-MM-DD')` is UTC midnight, then `setHours(0,0,0,0)` moves it to local midnight, and `todayISO()` writes local midnight as a UTC date | a browser at UTC-5 with one open task due today: it is "today" and "overdue" at once, labelled "Overdue 1d", and the counters show 1 due today and 1 overdue out of 1 task (at UTC+2 a task due yesterday is the one counted twice) | due dates compared as calendar days in the user's zone: overdue and due today are exclusive and the counters add up to at most the total | high, not executed | LocalTime.DueTodayIsOverdueWestOfUtc, LocalTime.StatsDoubleCountAsWritten | Dates.DueLabelAgrees, Query.StatsBounds |
