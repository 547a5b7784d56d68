# DoDeck task views in Dafny

DoDeck is a to-do application: a React front end over a small task API. This project models
the part of its front end that computes: the logic that takes the task list, "now" and the
window size and turns them into what the views show. The views in the model are:

- **Task management page.** `applyFiltersAndSort` runs a case-insensitive search over title or
  description, then exact filters on category, priority and status ("All" switches a filter
  off), then an in-place stable sort by date, priority or title. The page also has selection
  toggling, select-all, quick and bulk completion, and the priority badge colour.
- **Analytics page.** It has the completion rate, points, the per-priority, per-category and
  per-status counts, the seven-day completion trend, and the "most active" picks. Each pick
  sorts a chart array in place and reads off its head.
- **Calendar.** It has month length and the weekday of the 1st, computed the way JavaScript's
  `Date` does, plus the month grid and month stepping with year roll-over. The current and
  selected dates are state that the page changes. It also has the per-day task lookup and
  count, and the badge and label text.
- **Tutorial guide.** A six-step machine driven by Next, Previous, Complete and Skip, with a
  progress bar, step indicators and the clamped placement of the dialog.
- **Task form.** The change handler that writes one field, the values the inputs show with
  their fallbacks, and the due date cut at the first `'T'`.

The modules follow the program's structure:

- `TaskManagement`, `Analytics`, `CalendarView`, `Tutorial` and `TaskForm` model one source
  file each.
- `TaskModel` holds the task record.
- `Seqs` holds `Array.prototype.filter` and its counting lemmas.
- `Text` holds lower-casing, `includes`, `localeCompare` and decimal digits.
- `Civil` holds JavaScript `Date` arithmetic on (year, month, day) triples.
- `Sorting` holds the stable sort `Array.prototype.sort` performs with a consistent
  comparator, both as a specification function and as an in-place insertion sort on an
  array.

Representation choices:

- Status, category and priority stay strings, because the source disagrees with itself about
  their spellings. The schema and the form's status options use `'To do'`. The task page's
  new-task record, its status filter and the status chart use `'To Do'`. The form offers eight
  categories, but the category chart knows five.
- Months are 0-based, as `getMonth()` returns them.
- A task's `updatedAt` and `dueDate` hold the local calendar day that `toDateString()`
  compares.
- `createdAt` is an integer timestamp.
- "Today", the window width, the scroll offsets and the element lookups are parameters.

Where the code runs a loop, the model is a method proved against a specification function:

- `applyFiltersAndSort` is a method over a fresh copy of the array.
- `getLast7Days` is a `while` loop.
- The most-active picks sort an `array` in place.
- The calendar's and the tutorial's state are classes whose methods change their fields.

## Model

| member | source | states |
|---|---|---|
| TaskManagement.ApplyFiltersAndSort | frontend/src/pages/TaskManagement.jsx:60-95 | fails exactly when a non-empty query meets a task whose title misses and that has no description; its error is then the search's; otherwise returns the stable sort, by the chosen key, of exactly the tasks meeting every criterion; the input array is only read (no `modifies`) |
| TaskManagement.FilterStages | frontend/src/pages/TaskManagement.jsx:61-80 | copying the tasks and running the search and the three exact filters, each on the previous stage's array, gives a fresh array holding exactly the selected tasks in input order, or fails, exactly when the search throws, with the search's error |
| TaskManagement.QueryStage | frontend/src/pages/TaskManagement.jsx:63-69 | an empty query leaves the array as it is; otherwise the stage fails or succeeds as the search does, with the search's error or a fresh array of its result |
| TaskManagement.ExactStage | frontend/src/pages/TaskManagement.jsx:72-80 | a filter set to "All" keeps the same array; any other value gives a fresh array of the tasks whose field equals it |
| TaskManagement.NewArray | frontend/src/pages/TaskManagement.jsx:61 | the copy is a fresh array with the same contents |
| TaskManagement.SearchTest | frontend/src/pages/TaskManagement.jsx:65-68 | the callback keeps a task when the lowered title contains the lowered query, reads the description only when the title misses, and throws exactly when the title misses and the description is absent |
| TaskManagement.SearchStageSpec | frontend/src/pages/TaskManagement.jsx:64-69 | the search fails exactly when some task throws and then reports the first such task; otherwise it keeps exactly the tasks whose lowered title or description contains the lowered query |
| TaskManagement.SearchOutcome | frontend/src/pages/TaskManagement.jsx:64-69 | the pipeline throws exactly when the query is non-empty and the search fails; an empty query keeps every task |
| TaskManagement.FieldStageAfter | frontend/src/pages/TaskManagement.jsx:72-80 | an exact filter after any filter equals filtering by both conditions together; "All" imposes nothing |
| TaskManagement.StagesSelect | frontend/src/pages/TaskManagement.jsx:72-80 | the category, priority and status filters, in the page's order, select exactly the searched tasks that meet every criterion |
| TaskManagement.DisplayedList | frontend/src/pages/TaskManagement.jsx:60-95 | the displayed list is a permutation of the selected tasks: it holds a task exactly when the input does and the task meets every criterion, each as often as in the input, nothing invented, no longer than the input; it is ordered by the key, and tasks with equal keys keep their input order |
| TaskManagement.NoCriteriaKeepsAll | frontend/src/pages/TaskManagement.jsx:63-80 | an empty query and three "All" filters keep the whole list and never throw |
| TaskManagement.ComparatorAgrees | frontend/src/pages/TaskManagement.jsx:83-93 | the comparator is positive, zero or negative exactly when the key of one task is greater than, equal to or less than the other's, so sorting by the key is sorting by the comparator |
| TaskManagement.DateOrder | frontend/src/pages/TaskManagement.jsx:84-85 | sorted by "date", a task never precedes one created later (newest first) |
| TaskManagement.PriorityOrder | frontend/src/pages/TaskManagement.jsx:86-88 | sorted by "priority", High (3) comes before Medium (2), which comes before Low (1) |
| TaskManagement.TitleOrder | frontend/src/pages/TaskManagement.jsx:89-90 | sorted by "title", titles ascend in lexicographic order |
| TaskManagement.OtherKeyKeepsOrder | frontend/src/pages/TaskManagement.jsx:92 | any other sort value makes the comparator 0 throughout and keeps the filtered order |
| TaskManagement.ResortIsIdentity | frontend/src/pages/TaskManagement.jsx:83-93 | sorting the displayed list again by the same key changes nothing |
| TaskManagement.ToggleSelect | frontend/src/pages/TaskManagement.jsx:173-179 | the toggled id's membership flips and every other id's membership is kept |
| TaskManagement.ToggleNoDuplicates | frontend/src/pages/TaskManagement.jsx:173-179 | toggling never introduces a duplicate into a duplicate-free selection |
| TaskManagement.ToggleTwiceUnselected | frontend/src/pages/TaskManagement.jsx:173-179 | toggling an unselected id twice restores the selection exactly |
| TaskManagement.ToggleTwiceSelected | frontend/src/pages/TaskManagement.jsx:173-179 | toggling a selected id twice restores the set of selected ids, but the id moves to the end |
| TaskManagement.SelectAll | frontend/src/pages/TaskManagement.jsx:449-455 | checking the header box selects every displayed id in display order; unchecking it selects nothing |
| TaskManagement.QuickComplete | frontend/src/pages/TaskManagement.jsx:165 | the copy is completed and differs from the task in its status only |
| TaskManagement.BulkComplete | frontend/src/pages/TaskManagement.jsx:194-200 | nothing happens exactly when the selection is empty; otherwise every task whose id is selected yields one completed copy, in task-list order |
| TaskManagement.BulkCompleteTargets | frontend/src/pages/TaskManagement.jsx:198 | the targets are exactly the listed tasks whose id is selected, none invented or repeated |
| TaskManagement.PriorityColor | frontend/src/pages/TaskManagement.jsx:210-217 | red, yellow and green exactly for High, Medium and Low, and grey exactly for every other priority |
| Sorting.SortInPlace | frontend/src/pages/TaskManagement.jsx:83-93 | after the in-place sort the array holds the stable sort of its old contents by the key |
| Sorting.InsertInPlace | frontend/src/pages/TaskManagement.jsx:83-93 | one insertion step in place: the prefix up to `i` becomes the old sorted prefix with `a[i]` inserted, and the rest of the array is untouched |
| Sorting.ShiftGreater | frontend/src/pages/TaskManagement.jsx:83-93 | the shifting loop moves every element greater than the inserted one, taken from the right, one place up, and stops where the element belongs |
| Sorting.SortPermutation | frontend/src/pages/TaskManagement.jsx:83-93 | sorting is a permutation |
| Sorting.SortSorted | frontend/src/pages/TaskManagement.jsx:83-93 | the sort's result is ordered by the key |
| Sorting.SortStable | frontend/src/pages/TaskManagement.jsx:83-93 | elements with equal keys keep their relative order |
| Sorting.SortOfSorted | frontend/src/pages/TaskManagement.jsx:83-93 | a sequence already ordered by the key is left as it is |
| Sorting.SortIdempotent | frontend/src/pages/TaskManagement.jsx:83-93 | sorting twice is sorting once |
| Sorting.KeyTotal | frontend/src/pages/TaskManagement.jsx:83-93 | any two keys are comparable |
| Sorting.KeyTransitive | frontend/src/pages/TaskManagement.jsx:83-93 | key order is transitive |
| Sorting.KeyAntisymmetric | frontend/src/pages/TaskManagement.jsx:83-93 | keys ordered both ways are equal |
| Text.Lower | frontend/src/pages/TaskManagement.jsx:66-67 | lower-casing keeps the length and maps every character |
| Text.LowerIdempotent | frontend/src/pages/TaskManagement.jsx:66-67 | lower-casing twice is lower-casing once |
| Text.IncludesIff | frontend/src/pages/TaskManagement.jsx:66-67 | `includes` holds exactly when the needle occurs at some offset of the text |
| Text.IncludesEmpty | frontend/src/pages/TaskManagement.jsx:66-67 | every text includes the empty string |
| Text.LocaleCompare | frontend/src/pages/TaskManagement.jsx:90 | zero exactly for equal titles, and negative or positive as the first title orders before or after the second |
| Text.LexTotal | frontend/src/pages/TaskManagement.jsx:90 | any two titles are ordered one way or the other |
| Text.LexTransitive | frontend/src/pages/TaskManagement.jsx:90 | title order is transitive |
| Text.LexAntisymmetric | frontend/src/pages/TaskManagement.jsx:90 | titles ordered both ways are equal |
| Seqs.FilterMembership | frontend/src/pages/TaskManagement.jsx:65-79 | a filter keeps an element exactly when the input holds it and the condition holds |
| Seqs.FilterMultiset | frontend/src/pages/TaskManagement.jsx:65-79 | a filter keeps each kept element as often as the input holds it and drops the rest |
| Seqs.FilterFilter | frontend/src/pages/TaskManagement.jsx:65-79 | filtering twice is filtering by both conditions |
| Seqs.FilterConcat | frontend/src/pages/TaskManagement.jsx:65-79 | the filter of a concatenation is the concatenation of the filters |
| Analytics.CompletedCount | frontend/src/pages/Analytics.jsx:47 | the completed tasks never outnumber the tasks |
| Analytics.CompletionRate | frontend/src/pages/Analytics.jsx:46-48 | 0 for an empty list; otherwise completed over length times 100, in [0, 100], exactly 100 when every task is completed and exactly 0 when none is |
| Analytics.Percentage | frontend/src/pages/Analytics.jsx:47 | a share of a whole, times 100, lies in [0, 100], is 100 exactly for the whole and 0 exactly for nothing |
| Analytics.CountExtremes | frontend/src/pages/Analytics.jsx:46-48 | the completed count equals the number of tasks exactly when every task is completed, and is 0 exactly when none is |
| Analytics.TotalPoints | frontend/src/pages/Analytics.jsx:51 | ten times the completed count: a multiple of 10, at most ten per task, and the top score exactly when every task is completed; a tenth of it is the completed count the rate records |
| Analytics.Tally | frontend/src/pages/Analytics.jsx:54-67 | one entry per listed label, in list order, each holding the number of tasks whose field equals that label exactly |
| Analytics.TallyReconciles | frontend/src/pages/Analytics.jsx:54-67 | over distinct labels, the counts plus the tasks carrying none of the labels make up every task |
| Analytics.PriorityCountsReconcile | frontend/src/pages/Analytics.jsx:54-58 | the High, Medium and Low counts sum to at most the number of tasks, and to exactly that number when every priority is one of the three |
| Analytics.CategoryCountsReconcile | frontend/src/pages/Analytics.jsx:61-67 | the five category counts sum to the number of tasks less those with any other category |
| Analytics.StatusCountsReconcile | frontend/src/pages/Analytics.jsx:94-98 | the three status counts sum to the number of tasks less those with any other status |
| Analytics.PriorityNamesDistinct | frontend/src/pages/Analytics.jsx:54-58 | the charted priorities are distinct |
| Analytics.CategoryNamesDistinct | frontend/src/pages/Analytics.jsx:61-67 | the charted categories are distinct |
| Analytics.StatusNamesDistinct | frontend/src/pages/Analytics.jsx:94-98 | the charted statuses are distinct |
| Analytics.TallyIgnores | frontend/src/pages/Analytics.jsx:54-67 | a task whose label is not charted changes no count |
| Analytics.TallyCounts | frontend/src/pages/Analytics.jsx:54-67 | a task with a charted label adds exactly one to that label's count |
| Analytics.StoredToDoUncounted | frontend/src/pages/Analytics.jsx:95 | a task with the stored status 'To do' is counted under no status |
| Analytics.UnlistedCategoryUncounted | frontend/src/pages/Analytics.jsx:61-67 | a 'Health & Fitness' task is counted under no category |
| Analytics.WeeklyTrend | frontend/src/pages/Analytics.jsx:70-89 | the trend has exactly seven points |
| Analytics.Last7Days | frontend/src/pages/Analytics.jsx:70-89 | the loop from 6 down to 0 builds exactly the trend: for each day from six days ago to today, its weekday name and the number of completed tasks last updated on it |
| Analytics.WindowIsConsecutive | frontend/src/pages/Analytics.jsx:72-74 | the seven days are consecutive and the last is today |
| Analytics.WindowWeekdays | frontend/src/pages/Analytics.jsx:74-75 | consecutive points fall on consecutive weekdays |
| Analytics.TrendLabels | frontend/src/pages/Analytics.jsx:75 | each point is labelled with its own day's weekday, and the last with today's |
| Analytics.TrendLabelsExample | frontend/src/pages/Analytics.jsx:69-81 | a worked example: the week ending Monday 10 June 2024 is labelled from "Tue" to "Mon" |
| Analytics.TrendIgnores | frontend/src/pages/Analytics.jsx:76-80 | a task without `updatedAt`, or not completed, changes no point |
| Analytics.CompletedOnDistinctDays | frontend/src/pages/Analytics.jsx:76-80 | over distinct days, the per-day counts add up to the completed tasks updated on one of those days |
| Analytics.TrendTotalOfDates | frontend/src/pages/Analytics.jsx:76-80 | the trend's total is the sum of the per-day counts of its days |
| Analytics.TrendBounded | frontend/src/pages/Analytics.jsx:76-80 | the seven counts sum to at most the number of completed tasks |
| Analytics.ValueComparator | frontend/src/pages/Analytics.jsx:279 | `b.value - a.value` is non-positive exactly when the larger-first key lets `a` stay before `b`, and zero exactly on equal counts |
| Analytics.FirstMaximal | frontend/src/pages/Analytics.jsx:279 | the index of an entry whose count no entry exceeds and that every earlier entry falls short of |
| Analytics.SortedHeadValue | frontend/src/pages/Analytics.jsx:279 | the head of the descending sort carries the largest count |
| Analytics.SortedHeadIsFirstMaximal | frontend/src/pages/Analytics.jsx:279 | the descending stable sort puts first the earliest-listed entry with the largest count |
| Analytics.MostActive | frontend/src/pages/Analytics.jsx:279 | the chart array is sorted in place by descending count, and the name read off its head is the pick |
| Analytics.NothingCounted | frontend/src/pages/Analytics.jsx:54-67 | when no task carries any listed label, every count is 0 |
| Analytics.FirstMaximalOfTies | frontend/src/pages/Analytics.jsx:279 | when all counts are equal, the first entry is the pick |
| Analytics.CategoryPickWhenNothingCounted | frontend/src/pages/Analytics.jsx:279-291 | with no charted category, the category pick is the first listed, 'Work' |
| Analytics.PriorityPickWhenNothingCounted | frontend/src/pages/Analytics.jsx:279-291 | with no charted priority, the priority pick is the first listed, 'High' |
| Analytics.TopPickIsMaximal | frontend/src/pages/Analytics.jsx:279-291 | the pick always names a charted category, and no category has a higher count than it |
| Analytics.TopPriorityPickIsMaximal | frontend/src/pages/Analytics.jsx:279-291 | the priority pick always names a charted priority, and no priority has a higher count than it |
| Civil.MonthLength | frontend/src/components/Calendar.jsx:12-13 | a month has 28 to 31 days, and February has 29 exactly in leap years |
| Civil.NormalizeMakesDay | frontend/src/components/Calendar.jsx:11-12 | `new Date(y, m, d)` with any month and day lands on the day number the arguments name, rolling months and years over |
| Civil.NormalizeValid | frontend/src/components/Calendar.jsx:11 | a date that is already valid is left unchanged |
| Civil.MonthStep | frontend/src/components/Calendar.jsx:12 | the 1st of the next month is the month's length of days after the 1st of this one |
| Civil.YearStep | frontend/src/components/Calendar.jsx:12 | a leap year has 366 days and any other year 365 |
| Civil.DayShiftNumber | frontend/src/pages/Analytics.jsx:73-74 | `setDate(getDate() - i)` moves exactly `i` days back, across month and year ends |
| Civil.Weekday | frontend/src/components/Calendar.jsx:14 | `getDay()` lies in 0..6; `EpochWeekdays` and `WeekdayFromSunday` fix 0 as Sunday |
| Civil.EpochWeekdays | frontend/src/components/Calendar.jsx:14 | day 0 is 1 January 1970, weekday 4 (Thursday), and 4 January 1970 is day 3, weekday 0 (Sunday) |
| Civil.WeekdayFromSunday | frontend/src/components/Calendar.jsx:14 | every day's weekday is its distance in days from Sunday 4 January 1970, modulo 7 |
| Civil.WeekdayExample | frontend/src/components/Calendar.jsx:14 | a worked example: 10 June 2024 is day 19884 and has weekday 1 (Monday) |
| Civil.WeekdayNext | frontend/src/components/Calendar.jsx:14 | the day after has the next weekday |
| Civil.PrevOf | frontend/src/components/Calendar.jsx:43-49 | the previous month's next month is this month |
| CalendarView.LastDayOfMonth | frontend/src/components/Calendar.jsx:12-13 | day 0 of the next month is the last day of this one |
| CalendarView.GetDaysInMonth | frontend/src/components/Calendar.jsx:8-16 | the month's year and month, its Gregorian length (28 to 31, February 29 exactly in leap years), and a starting weekday in 0..6 that is the weekday of the 1st |
| CalendarView.JuneTwentyTwentyFour | frontend/src/components/Calendar.jsx:8-16 | a worked example: June 2024 has 30 days and starts on weekday 6, a Saturday |
| CalendarView.NextMonthOf | frontend/src/components/Calendar.jsx:47-49 | day 1 of the following month, rolling December over into January of the next year |
| CalendarView.PrevMonthOf | frontend/src/components/Calendar.jsx:43-45 | day 1 of the preceding month, rolling January back into December of the previous year |
| CalendarView.MonthStepsInvert | frontend/src/components/Calendar.jsx:43-49 | previous after next, and next after previous, return to the 1st of the same month |
| CalendarView.MonthGrid | frontend/src/components/Calendar.jsx:108-112 | the grid is `startingDayOfWeek` blanks followed by the days 1 to `daysInMonth` |
| CalendarView.GridShape | frontend/src/components/Calendar.jsx:108-112 | the month's grid has 28 to 37 cells, and day `d` sits in cell `start + d - 1` |
| CalendarView.GridOfLength | frontend/src/components/Calendar.jsx:108-112 | a grid of a 28- to 31-day month with fewer than seven leading blanks has 28 to 37 cells, and day `d` in cell `start + d - 1` |
| CalendarView.GridColumns | frontend/src/components/Calendar.jsx:73 | in a seven-column grid, every day sits under its own weekday's heading |
| CalendarView.MonthColumns | frontend/src/components/Calendar.jsx:73 | starting at the weekday of the 1st, day `d` of the month falls in the column of its own weekday |
| CalendarView.DayColumn | frontend/src/components/Calendar.jsx:108-112 | counting on from the 1st's weekday gives each day's weekday |
| CalendarView.TasksForDate | frontend/src/components/Calendar.jsx:30-39 | a missing task list gives nothing; otherwise only tasks due on the day, never more than the list holds |
| CalendarView.TaskCountForDate | frontend/src/components/Calendar.jsx:19-28 | a missing task list counts 0 |
| CalendarView.CountMatchesList | frontend/src/components/Calendar.jsx:19-39 | for every day, the count is the length of the day's task list |
| CalendarView.TasksForDateMembership | frontend/src/components/Calendar.jsx:30-39 | a task is listed exactly when it is in the list and due that day; nothing is invented or repeated |
| CalendarView.TasksForDateInOrder | frontend/src/components/Calendar.jsx:34-38 | the day's tasks keep the list's order: splitting the list splits the result the same way |
| CalendarView.UndatedNeverListed | frontend/src/components/Calendar.jsx:35 | a task without a due date is listed on no day |
| CalendarView.CountsOverDays | frontend/src/components/Calendar.jsx:19-28 | over distinct days, the day counts sum to at most the number of tasks |
| CalendarView.CountsWithin | frontend/src/components/Calendar.jsx:19-28 | over distinct days, the day counts sum to the number of tasks due on one of them |
| CalendarView.MiniBadge | frontend/src/components/Calendar.jsx:129-132 | no badge exactly for 0; "9+" exactly above 9; otherwise one digit that reads back as the count |
| CalendarView.Noun | frontend/src/components/Calendar.jsx:220 | 'task' exactly for a count of 1, 'tasks' otherwise |
| CalendarView.FullLabel | frontend/src/components/Calendar.jsx:217-220 | no label exactly for 0 |
| CalendarView.FullLabelReadsBack | frontend/src/components/Calendar.jsx:220 | the label is the count in decimal, a space and the noun, and its number reads back as the count |
| CalendarView.ChipColor | frontend/src/components/Calendar.jsx:254-256 | red exactly for High, yellow exactly for Medium, green for everything else |
| CalendarView.ChipAgreesWithBadge | frontend/src/components/Calendar.jsx:254-256 | on the three priorities the chip uses the task page's badge colours; on any other priority it differs (green, not grey) |
| CalendarView.CalendarState.constructor | frontend/src/components/Calendar.jsx:5-6 | the calendar opens on today with nothing selected |
| CalendarView.CalendarState.Info | frontend/src/components/Calendar.jsx:41 | the month shown is the current date's month |
| CalendarView.CalendarState.PreviousMonth | frontend/src/components/Calendar.jsx:43-45 | the current date becomes day 1 of the previous month; the selection is kept |
| CalendarView.CalendarState.NextMonth | frontend/src/components/Calendar.jsx:47-49 | the current date becomes day 1 of the next month; the selection is kept |
| CalendarView.CalendarState.DateClick | frontend/src/components/Calendar.jsx:51-55 | the clicked day of the shown month becomes the selection and is reported; the month shown is kept |
| CalendarView.CalendarState.IsToday | frontend/src/components/Calendar.jsx:57-62 | true exactly when day, month and year all equal today's |
| CalendarView.CalendarState.IsSelected | frontend/src/components/Calendar.jsx:64-69 | true exactly when day, month and year all equal the selection's, and false when nothing is selected |
| CalendarView.CalendarState.SelectedDateTasks | frontend/src/components/Calendar.jsx:75 | nothing without a selection; otherwise only tasks due on the selected day |
| CalendarView.ClickSelectsCell | frontend/src/components/Calendar.jsx:51-69 | after a click on a day of the shown month, that cell and no other shows as selected |
| Tutorial.StepAfterNext | frontend/src/components/TutorialGuide.jsx:79-89 | Next moves one step on below the last step and stays at the last one; the step stays in [0, 5] |
| Tutorial.StepAfterPrevious | frontend/src/components/TutorialGuide.jsx:91-99 | Previous moves one step back above the first step and does nothing at step 0; the step stays in [0, 5] |
| Tutorial.NextPreviousInverse | frontend/src/components/TutorialGuide.jsx:79-99 | below the last step, Previous undoes Next; above the first, Next undoes Previous |
| Tutorial.StepAfter | frontend/src/components/TutorialGuide.jsx:79-99 | any run of Next and Previous presses keeps the step among the six |
| Tutorial.FiveNextsReachLast | frontend/src/components/TutorialGuide.jsx:4-47 | a worked example: five presses of Next from the first step reach the last of the six steps |
| Tutorial.Progress | frontend/src/components/TutorialGuide.jsx:114 | (step + 1) / 6 × 100, in (0, 100], and exactly 100 at the last step |
| Tutorial.ProgressIncreases | frontend/src/components/TutorialGuide.jsx:114 | progress grows with each step |
| Tutorial.Indicators | frontend/src/components/TutorialGuide.jsx:270-278 | six dots: current exactly at the step, passed exactly before it, ahead exactly after it |
| Tutorial.ClampedLeft | frontend/src/components/TutorialGuide.jsx:126-135 | max(20, min(innerWidth − 420, centre − 200)) is at least 20, keeps the dialog 20 inside the right edge when the window is wide enough, and centres the dialog on the element when that fits |
| Tutorial.DialogPosition | frontend/src/components/TutorialGuide.jsx:117-152 | the fixed centred placement exactly when there is no highlight |
| Tutorial.VerticalPlacementsClampLeft | frontend/src/components/TutorialGuide.jsx:126-135 | below and above the element, the dialog's left edge is at least 20, and 20 inside the right edge when the window is wide enough |
| Tutorial.PlacementsClampTop | frontend/src/components/TutorialGuide.jsx:133-146 | above, to the right and to the left, the dialog's top is at least 20 |
| Tutorial.BottomPlacementBelow | frontend/src/components/TutorialGuide.jsx:126-130 | below the element, the dialog starts under its bottom edge |
| Tutorial.TopPlacementAbove | frontend/src/components/TutorialGuide.jsx:131-135 | above the element, when there is room, the dialog ends 20 above its top edge |
| Tutorial.RightPlacementBeside | frontend/src/components/TutorialGuide.jsx:136-140 | to the right, the dialog starts past the element's right edge |
| Tutorial.StepPlacements | frontend/src/components/TutorialGuide.jsx:4-47 | the six steps only ask for bottom, top or right |
| Tutorial.TutorialGuide.constructor | frontend/src/components/TutorialGuide.jsx:50-58 | the guide mounts at step 0, not completed; when it is open and the first step's element is found, the effect's first run sets the highlight to that element's page box, and otherwise there is no highlight |
| Tutorial.TutorialGuide.UpdateHighlight | frontend/src/components/TutorialGuide.jsx:60-77 | a found element sets the highlight to its box shifted by the scroll offsets, with the step's position; a missing one changes nothing |
| Tutorial.TutorialGuide.Next | frontend/src/components/TutorialGuide.jsx:54-89 | one step on below the last step, after which the re-run effect sets the highlight to the new step's element when the guide is open and the element is found, and keeps it otherwise; at the last step, completes and closes with the highlight unchanged |
| Tutorial.TutorialGuide.Previous | frontend/src/components/TutorialGuide.jsx:54-99 | one step back above step 0, after which the re-run effect sets the highlight to the new step's element when the guide is open and the element is found; nothing at step 0 |
| Tutorial.TutorialGuide.Complete | frontend/src/components/TutorialGuide.jsx:101-104 | records the tutorial as completed and closes it, from any step |
| Tutorial.TutorialGuide.Skip | frontend/src/components/TutorialGuide.jsx:106-109 | the same effect as Complete, from any step |
| Tutorial.TutorialGuide.PreviousDisabled | frontend/src/components/TutorialGuide.jsx:239 | the Previous button is disabled exactly where Previous would do nothing |
| Tutorial.TutorialGuide.ShowsFinish | frontend/src/components/TutorialGuide.jsx:249 | "Got It!" replaces Next exactly where progress is 100 |
| TaskForm.HandleChange | frontend/src/components/TaskForm.jsx:5-8 | the new record holds `value` under `name` and is otherwise the old record |
| TaskForm.ChangeIdempotent | frontend/src/components/TaskForm.jsx:5-8 | making the same change twice is making it once |
| TaskForm.ChangeOverrides | frontend/src/components/TaskForm.jsx:5-8 | a later change to a field overrides an earlier one |
| TaskForm.ChangesCommute | frontend/src/components/TaskForm.jsx:5-8 | changes to different fields can be made in either order |
| TaskForm.ChangeToSameValue | frontend/src/components/TaskForm.jsx:5-8 | writing back a field's own value leaves the record unchanged |
| TaskForm.ValueOr | frontend/src/components/TaskForm.jsx:18 | `x || fallback`: the stored value unless it is absent or empty, else the fallback |
| TaskForm.EmptyRecordDefaults | frontend/src/components/TaskForm.jsx:18-76 | the empty record `map[]` shows an empty title and description, and 'Medium', 'Work' and 'To do' |
| TaskForm.NewTaskRecord | frontend/src/pages/TaskManagement.jsx:103-111 | the page's new-task record holds exactly the six fields title, description, priority, category, status and dueDate |
| TaskForm.NewTaskStatusNotAnOption | frontend/src/components/TaskForm.jsx:76-82 | the new-task record's status shows as 'To Do', which none of the select's three options carries; title and due date show empty, priority 'Medium', category 'Work' |
| TaskForm.TypedTextShown | frontend/src/components/TaskForm.jsx:18-29 | the title and description inputs show back what was typed |
| TaskForm.PickedOptionShown | frontend/src/components/TaskForm.jsx:41-76 | the priority, category and status selects show the picked option, or their fallbacks for an empty pick |
| TaskForm.ChangeShowsOnlyItsField | frontend/src/components/TaskForm.jsx:5-8 | a change to another field leaves what the title and priority inputs show unchanged |
| TaskForm.BeforeFirst | frontend/src/components/TaskForm.jsx:91 | `split(sep)[0]` is a prefix without the separator, followed in the string by the separator when shorter, and the whole string when the separator is absent |
| TaskForm.BeforeFirstSplits | frontend/src/components/TaskForm.jsx:91 | the part before the first separator, the separator and the rest recompose the string |
| TaskForm.BeforeFirstIdempotent | frontend/src/components/TaskForm.jsx:91 | cutting a second time changes nothing |
| TaskForm.DueDateShown | frontend/src/components/TaskForm.jsx:91 | empty for an absent or empty due date; otherwise a prefix of the stored string with no 'T' |
| TaskForm.TimestampShowsDate | frontend/src/components/TaskForm.jsx:91 | a worked example: the stored timestamp "2025-03-14T00:00:00.000Z" shows as "2025-03-14" |
| TaskForm.PickedDateShown | frontend/src/components/TaskForm.jsx:91 | a date picked in the date input shows back unchanged |

## Left out

- Network and persistence are not modelled. This covers `loadTasks`, the
  create/update/delete calls, `Promise.all` and toasts. Bulk completion is modelled as the
  list of records it would send.
- `handleBulkDelete` is not modelled. It deletes the selected ids themselves, which involves
  no computation beyond the empty-selection guard.
- Rendering is not modelled: JSX, CSS classes, the Recharts charts, `getStatusIcon`, the
  month and day name tables, and the pixel strings of the dialog placement. The fixed centred
  placement is represented by `Centered`.
- The random `created` values and the constant streak of the analytics page are placeholders,
  so they are not modelled.
- Analytics.CompletionRate: it is the exact rational percentage. The page shows it after
  `toFixed(1)`, whose rounding to a string is not modelled.
- Time zones are not modelled. `toDateString()` and `new Date(timestamp)` are represented by
  the local calendar day stored on the task. "Today" is a parameter, as are the window
  width, the scroll offsets and the element found by `querySelector`.
- Text.Lower: lower-cases ASCII letters only, where `toLowerCase` is full Unicode.
- Text.LocaleCompare: uses plain code-point order on Unicode scalar values, where
  `localeCompare` uses the locale's collation. Code-point order also differs from
  JavaScript's UTF-16 code-unit order for characters above U+FFFF.
- TaskManagement.PriorityRank: ranks a priority outside High, Medium and Low as 0, below Low.
  In JavaScript such a task makes the comparator NaN. `sort` treats NaN as 0, so that task is
  "equal" to every other and the comparator is not consistent. The order the engine then
  produces depends on its sort algorithm, so the model only matches it when every priority is
  one of the three.
- Sorting.SortInPlace is an insertion sort. Engines use other algorithms, but with a
  consistent comparator every stable sort produces the same order. An invalid `createdAt`,
  which would make the date comparator NaN, is not modelled.
- A task without a title is not modelled. The schema requires the title, so its
  `toLowerCase` never throws.
- The tasks' `userId` and `archived` fields, and fields the front end never reads, are left
  out of the task record.
- The 300 ms `setTimeout` before a step change is not modelled; Next and Previous take
  effect at once. Presses made during the delay are therefore not modelled.
- `scrollIntoView` and the slide animation are not modelled.
- `localStorage` is modelled as the guide's `completed` flag, and `onClose` as its `open`
  flag. The steps' description texts are left out.
- The calendar's `onDateClick` and `onCreateTask` callbacks are not modelled. `DateClick`
  returns the date it would pass. A `tasks` prop that is missing or not an array is modelled
  as `None`.
- The form's `handleSubmit` and `closeModal` are not modelled. The record maps field names
  to strings, so a field holding a non-string value is not modelled.
- The mismatch between the 'To do' of the schema and the form's options and the 'To Do' of
  the new-task record, the status filter and the status chart is modelled as written, in the
  status counts and in `NewTaskStatusNotAnOption`. The same
  goes for the mismatch between the eight categories of the form and the five of the chart.
  `StoredToDoUncounted` and `UnlistedCategoryUncounted` state the consequence.
