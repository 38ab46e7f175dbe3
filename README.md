# Productivity hub planner: calendar, todos, habits and resources in Dafny

This project models the core of the `CalendarPlanner` component of a personal
planning tool. The tool has three lists: todos scheduled on calendar days,
habits marked done day by day, and bookmarked learning resources. The model
covers:

- **Calendar engine** (`calendar.dfy`, module `Calendar`). From a
  `YYYY-MM-DD` string it derives the month's length and the weekday of the
  month's first day. These follow the Gregorian rules, written out as an
  explicit leap-year rule and a day-number formula rather than a `Date`
  object. The model keeps the two `Date` behaviours the source relies on:
  - a month index of 12 rolls into January of the next year, and day 0 is the
    last day of the previous month;
  - the constructor reads years 0..99 as 1900..1999.

  It also models the `YYYY-MM-DD` label of each day cell.
- **Scheduling controller** (`scheduling.dfy`, module `Scheduling`): adding,
  toggling, updating and deleting todos, grouping them by day, and the date
  rewrite a drag-and-drop performs.
- **Habit tracker** (`habits.dfy`, module `Habits`): adding, toggling today's
  mark, deleting, and the count shown as "N days tracked".
- **Resource classifier** (`resources.dfy`, module `Resources`): adding with
  a default title and a type inferred from the URL, toggling, deleting.
- **The component state** (`planner.dfy`, module `Planner`). Class
  `CalendarPlanner` holds the state slots `todos`, `habits`, `resources`,
  `selectedDate` and `draggedTodo`. Each handler replaces a slot with the
  result of the pure operation. `Valid()` is the invariant the handlers keep:
  ids are unique in each list and no habit lists a date twice.

Support modules:
- `Text` models JavaScript `trim` and `includes`, using ECMAScript's
  whitespace set.
- `Lists` models `Array.prototype.map` and `filter`.
- `Wrappers` holds `Option`.
- `Scenarios` states concrete runs: the March 2024 grid, February lengths,
  a todo added, completed and deleted, a habit marked and unmarked.

The record operations are pure functions, as in the source: each builds a new
list with `map`, `filter` or spread. The handlers are methods of the class.
Clock values are parameters:
- the `Date.now()` id, which must be fresh;
- the "today" string;
- the `addedAt` time stamp.

Modal text is passed in as the `title`/`url` arguments.

Behaviour of the code that the model keeps, including cases where a
reader might expect otherwise:
- "Today" in `toggleHabitToday` is the UTC date from `toISOString`, not a
  device-local date. The model takes it as a parameter.
- A grid for `0000-02-DD` has 28 days, because the constructor reads year 0
  as 1900 (`Calendar.YearZeroFebruary`). Years 1..99 keep their Gregorian
  month lengths but take the weekdays of 1901..1999.
- Day-cell labels print the year without padding. For years below 1000 a
  label is shorter than `YYYY-MM-DD` (`Calendar.DayCellShortYear`), so it
  never equals an ISO-shaped date such as today's `toISOString` date (lines
  8, 199) or the initial selected date. A drop on such a cell (line 304) or a
  click on it followed by an add (lines 302, 165) stores the short label
  itself as the todo's date, and from then on the todo is shown under that
  cell (`Scheduling.RescheduledTodoIsOnTarget`).
- `duration >= 15` is not enforced: `updateTodo` stores any integer it is
  given.
- Blank checks use `trim`. A whitespace-only title, habit name or URL is
  rejected, but an accepted todo title or habit name is stored as typed.

## Model

| member | source | states |
|---|---|---|
| `Text.Trim` | src/components/productivity-hub.jsx:216-217 | `trim()` result is a slice of the input with only whitespace before and after it; it is empty iff the input is all whitespace, otherwise it starts and ends with non-whitespace |
| `Text.IsBlank` | src/components/productivity-hub.jsx:161 | the test `!s.trim()` holds iff every character is whitespace |
| `Text.TrimStart` | src/components/productivity-hub.jsx:217 | result is the suffix left after the leading whitespace; everything dropped is whitespace |
| `Text.TrimEnd` | src/components/productivity-hub.jsx:217 | result is the prefix left before the trailing whitespace; everything dropped is whitespace |
| `Text.Includes` | src/components/productivity-hub.jsx:222 | `includes` is true iff the substring occurs at some index |
| `Lists.Map` | src/components/productivity-hub.jsx:176 | `map` keeps the length; element i is f applied to element i |
| `Lists.Filter` | src/components/productivity-hub.jsx:180 | `filter` returns exactly the input elements that pass the test |
| `Lists.FilterAppend` | src/components/productivity-hub.jsx:147 | filtering keeps encounter order: it distributes over concatenation |
| `Lists.FilterIdempotent` | src/components/productivity-hub.jsx:180 | filtering twice with one test equals filtering once |
| `Lists.NoDuplicatesCardinality` | src/components/productivity-hub.jsx:440 | a duplicate-free list has as many distinct values as elements |
| `Calendar.GetDaysInMonth` | src/components/productivity-hub.jsx:132-140 | for any `YYYY-MM-DD`-shaped string with month 01-12 (any day field), `year`/`month` are parsed from the string (month 0-based); `daysInMonth` is the month's length in the constructor's year (28..31); `startingDayOfWeek` is in 0..6 and is that year's weekday of the 1st |
| `Calendar.Weekday` | src/components/productivity-hub.jsx:138 | `getDay()` of a valid date is in 0..6; its values are pinned by `KnownWeekdays` and `NextMonthFollows` |
| `Calendar.MakeDate` | src/components/productivity-hub.jsx:135-136 | `new Date(y, m, 0 or 1)` gives a valid date whose day number is MakeDay's: the 1st of the normalised month plus d - 1 |
| `Calendar.ConstructorYear` | src/components/productivity-hub.jsx:135-136 | the constructor moves exactly the years 0..99, each to 1900 + y; every other year is kept |
| `Calendar.MonthEnds` | src/components/productivity-hub.jsx:135-137 | `new Date(y, m, 1)` is the 1st of month m and `new Date(y, m + 1, 0).getDate()` is month m's length, including December rolling into the next year |
| `Calendar.GridHasGregorianLength` | src/components/productivity-hub.jsx:132-140 | grid length equals the Gregorian length of the parsed year and month, except February of year 0 |
| `Calendar.YearZeroFebruary` | src/components/productivity-hub.jsx:135-137 | `0000-02-10` gives a 28-day grid although year 0 is a leap year |
| `Calendar.YearStep` | src/components/productivity-hub.jsx:136-137 | a year is 366 days long in a leap year, 365 otherwise |
| `Calendar.NextMonthFollows` | src/components/productivity-hub.jsx:135-138 | the next month starts `MonthLength` days later, so its first weekday is this month's shifted by the length, mod 7 |
| `Calendar.KnownWeekdays` | src/components/productivity-hub.jsx:138 | the weekday formula gives Thursday for 1970-01-01, Friday for 2024-03-01, Saturday for 2000-01-01 |
| `Calendar.DecimalString` | src/components/productivity-hub.jsx:294 | `String(n)` gives digits with no leading zero that parse back (`DecimalValue`, the model of `parseInt`) to n |
| `Calendar.DecimalStringOfValue` | src/components/productivity-hub.jsx:294 | a digit string with no leading zero is `String` of its value |
| `Calendar.PadStart2Value` | src/components/productivity-hub.jsx:294 | `PadStart2`, i.e. `padStart(2, '0')`, gives digits of length max(2, len) with the same value |
| `Calendar.ParseIsoFields` | src/components/productivity-hub.jsx:133-134 | year, month and day are read from positions 0-3, 5-6 and 8-9 of `YYYY-MM-DD` |
| `Calendar.YearOf` | src/components/productivity-hub.jsx:133 | `parseInt(date.split('-')[0])` of a `YYYY-MM-DD` string is at most 9999 |
| `Calendar.MonthOf` | src/components/productivity-hub.jsx:134 | `parseInt(date.split('-')[1])` of a `YYYY-MM-DD` string is at most 99 (`IsIsoDate` then bounds it to 1..12) |
| `Calendar.DayOf` | src/components/productivity-hub.jsx:294 | the day field of a `YYYY-MM-DD` string is at most 99 (`IsIsoDate` then bounds it by the month length) |
| `Calendar.DayCellIsIsoDate` | src/components/productivity-hub.jsx:294 | for 4-digit years the cell label `DayCellDate`, i.e. `${year}-${pad(month+1)}-${pad(day)}`, is a valid ISO date that parses back to the cell's year, month+1 and day |
| `Calendar.DayCellPieces` | src/components/productivity-hub.jsx:294 | for 4-digit years the label is four year digits, a dash, two month digits, a dash and two day digits, with those values |
| `Calendar.DayCellShortYear` | src/components/productivity-hub.jsx:294 | for years below 1000 a cell label is shorter than `YYYY-MM-DD` |
| `Calendar.SelectedDayCell` | src/components/productivity-hub.jsx:294-296 | the cell of the selected day is labelled with exactly the selected date string (4-digit years) |
| `Calendar.DayCellSameMonth` | src/components/productivity-hub.jsx:292-295 | every cell label of the shown month has the same grid as the selected date |
| `Scheduling.TodosForDate` | src/components/productivity-hub.jsx:146-148 | returns exactly the todos whose date equals the given string |
| `Scheduling.TodosForDateAppend` | src/components/productivity-hub.jsx:146-148 | grouping keeps list order, with no sorting |
| `Scheduling.TodosForSingleton` | src/components/productivity-hub.jsx:147 | a single todo is grouped on its own date and no other |
| `Scheduling.AddTodo` | src/components/productivity-hub.jsx:160-173 | blank title: list unchanged; otherwise earlier todos kept and one todo appended with the given id, title and date, not completed, `medium`, `09:00`, 60 minutes |
| `Scheduling.AddedTodoIsLastOnItsDay` | src/components/productivity-hub.jsx:160-171 | a new todo appears last among its day's todos |
| `Scheduling.ToggleTodo` | src/components/productivity-hub.jsx:175-177 | same length; `completed` flips exactly on records with the id; every other field and record unchanged |
| `Scheduling.ToggleTodoTwice` | src/components/productivity-hub.jsx:175-177 | toggling twice restores the list |
| `Scheduling.MissingTodoIsNoOp` | src/components/productivity-hub.jsx:175-185 | toggle, update and delete of an absent id return the list unchanged |
| `Scheduling.ApplyUpdate` | src/components/productivity-hub.jsx:184 | spread: every field the update names takes the update's value; the id and every field it leaves out are kept |
| `Scheduling.UpdateTodo` | src/components/productivity-hub.jsx:183-185 | same length and order; records with the id have the named fields overwritten and the rest kept (`ApplyUpdate`); other records unchanged |
| `Scheduling.DeleteTodo` | src/components/productivity-hub.jsx:179-181 | the result holds no record with the id and every record without it |
| `Scheduling.DeleteTodoTwice` | src/components/productivity-hub.jsx:179-181 | deleting twice equals deleting once |
| `Scheduling.DeleteTodoAppend` | src/components/productivity-hub.jsx:179-181 | deletion keeps the survivors in order |
| `Scheduling.DeleteAfterUpdate` | src/components/productivity-hub.jsx:179-185 | an update followed by a delete of the same id equals the delete alone |
| `Scheduling.DeleteAfterToggle` | src/components/productivity-hub.jsx:175-181 | a toggle followed by a delete of the same id equals the delete alone |
| `Scheduling.SameIdsSameDeletion` | src/components/productivity-hub.jsx:180 | deletion depends only on ids and on the records that survive |
| `Scheduling.Reschedule` | src/components/productivity-hub.jsx:246-251 | a drop sets the date of records with the dragged id and leaves all other records unchanged |
| `Scheduling.RescheduleChangesOnlyDate` | src/components/productivity-hub.jsx:246-251 | every field except `date` of every todo is unchanged by a drop |
| `Scheduling.RescheduledTodoIsOnTarget` | src/components/productivity-hub.jsx:246-251 | after a drop the dragged todo is grouped under the target day |
| `Scheduling.AddTodoKeepsIds` | src/components/productivity-hub.jsx:160-171 | adding with a fresh id keeps todo ids unique |
| `Scheduling.ToggleTodoKeepsIds` | src/components/productivity-hub.jsx:175-177 | toggling keeps todo ids unique |
| `Scheduling.UpdateTodoKeepsIds` | src/components/productivity-hub.jsx:183-185 | updates, drops included, keep todo ids unique |
| `Scheduling.DeleteTodoKeepsIds` | src/components/productivity-hub.jsx:179-181 | deleting keeps todo ids unique |
| `Habits.AddHabit` | src/components/productivity-hub.jsx:187-196 | blank name: list unchanged; otherwise one habit with the id, the name and no dates appended |
| `Habits.RemoveDate` | src/components/productivity-hub.jsx:203 | removes every occurrence of today and keeps every other date |
| `Habits.ToggleDate` | src/components/productivity-hub.jsx:202-204 | today is present afterwards iff it was absent before; other dates unchanged; an absent today is appended once |
| `Habits.ToggleHabitToday` | src/components/productivity-hub.jsx:198-209 | same length; ids and names kept; only habits with the id get their dates toggled |
| `Habits.DeleteHabit` | src/components/productivity-hub.jsx:211-213 | the result holds no habit with the id and every habit without it; their order is kept (`DeleteHabitAppend`) |
| `Habits.RemoveDateLength` | src/components/productivity-hub.jsx:203 | on duplicate-free dates, removing a present date shortens the list by exactly one |
| `Habits.ToggleDateNoDuplicates` | src/components/productivity-hub.jsx:202-204 | toggling never creates a duplicate date |
| `Habits.StreakAfterToggle` | src/components/productivity-hub.jsx:440 | `Streak` (`completedDates.length`) grows by 1 when today is marked and drops by 1 when unmarked (duplicate-free dates) |
| `Habits.StreakCountsDays` | src/components/productivity-hub.jsx:440 | on duplicate-free dates the count `completedDates.length` is the number of distinct days marked |
| `Habits.ToggleDateTwice` | src/components/productivity-hub.jsx:202-204 | two toggles restore the list if today was absent; in all cases they restore the set of dates and the count |
| `Habits.ToggleHabitTodayTwice` | src/components/productivity-hub.jsx:198-209 | two toggles restore every habit's id, name, set of dates and count |
| `Habits.DeleteHabitAppend` | src/components/productivity-hub.jsx:211-213 | deletion keeps the surviving habits in their order: it distributes over concatenation |
| `Habits.DeleteHabitProperties` | src/components/productivity-hub.jsx:211-213 | deleting twice equals deleting once; a missing id changes nothing |
| `Habits.AddHabitKeepsInvariant` | src/components/productivity-hub.jsx:187-196 | adding with a fresh id keeps habit ids unique and all date lists duplicate-free |
| `Habits.ToggleHabitTodayKeepsInvariant` | src/components/productivity-hub.jsx:198-209 | toggling keeps habit ids unique and all date lists duplicate-free |
| `Habits.DeleteHabitKeepsInvariant` | src/components/productivity-hub.jsx:211-213 | deleting keeps habit ids unique and all date lists duplicate-free |
| `Resources.Classify` | src/components/productivity-hub.jsx:222 | the type is video iff `youtube` or `youtu.be` occurs in the URL at some index |
| `Resources.AddResource` | src/components/productivity-hub.jsx:215-228 | blank URL: list unchanged. Otherwise one resource is appended: trimmed title or `Untitled Resource`, the URL as typed, `video` iff the URL contains `youtube` or `youtu.be`, not completed, the given `addedAt` |
| `Resources.ResourceTitle` | src/components/productivity-hub.jsx:217 | `title.trim() || 'Untitled Resource'` is never blank; it is the default iff the typed title is blank, and the trimmed title otherwise |
| `Resources.ClassifyExamples` | src/components/productivity-hub.jsx:222 | `https://youtu.be/abc` is a video; `https://example.com/course` is a course |
| `Resources.NoYMeansNoYoutube` | src/components/productivity-hub.jsx:222 | a URL without the letter `y` is classified as a course |
| `Resources.ClassifyIsCaseSensitive` | src/components/productivity-hub.jsx:222 | an upper-case `YOUTUBE` URL is a course |
| `Resources.ToggleResource` | src/components/productivity-hub.jsx:230-232 | same length; `completed` flips exactly on records with the id; everything else unchanged |
| `Resources.ToggleResourceTwice` | src/components/productivity-hub.jsx:230-232 | toggling twice restores the list; the type never changes |
| `Resources.DeleteResource` | src/components/productivity-hub.jsx:234-236 | the result holds no record with the id and every record without it; their order is kept (`DeleteResourceAppend`) |
| `Resources.DeleteResourceAppend` | src/components/productivity-hub.jsx:234-236 | deletion keeps the surviving resources in their order: it distributes over concatenation |
| `Resources.ResourceNoOps` | src/components/productivity-hub.jsx:230-236 | deleting twice equals deleting once; toggle and delete of a missing id change nothing |
| `Resources.AddResourceKeepsIds` | src/components/productivity-hub.jsx:215-226 | adding with a fresh id keeps resource ids unique |
| `Resources.ToggleResourceKeepsIds` | src/components/productivity-hub.jsx:230-232 | toggling keeps resource ids unique |
| `Resources.DeleteResourceKeepsIds` | src/components/productivity-hub.jsx:234-236 | deleting keeps resource ids unique |
| `Planner.CalendarPlanner.constructor` | src/components/productivity-hub.jsx:5-10 | starts with empty lists, nothing dragged and today selected |
| `Planner.CalendarPlanner.SelectDate` | src/components/productivity-hub.jsx:302 | clicking a cell selects its date |
| `Planner.CalendarPlanner.AddTodo` | src/components/productivity-hub.jsx:160-173 | `todos` becomes `AddTodo` of the old list on the selected date; invariant kept |
| `Planner.CalendarPlanner.ToggleTodo` | src/components/productivity-hub.jsx:175-177 | `todos` becomes `ToggleTodo` of the old list; invariant kept |
| `Planner.CalendarPlanner.UpdateTodo` | src/components/productivity-hub.jsx:183-185 | `todos` becomes `UpdateTodo` of the old list; invariant kept |
| `Planner.CalendarPlanner.DeleteTodo` | src/components/productivity-hub.jsx:179-181 | `todos` becomes `DeleteTodo` of the old list; invariant kept |
| `Planner.CalendarPlanner.HandleDragStart` | src/components/productivity-hub.jsx:238-240 | the drag slot holds the new todo, replacing any earlier one |
| `Planner.CalendarPlanner.HandleDrop` | src/components/productivity-hub.jsx:246-251 | with a dragged todo, the list is rescheduled by its id; with none, the list is unchanged; either way the slot ends empty |
| `Planner.CalendarPlanner.AddHabit` | src/components/productivity-hub.jsx:187-196 | `habits` becomes `AddHabit` of the old list; invariant kept |
| `Planner.CalendarPlanner.ToggleHabitToday` | src/components/productivity-hub.jsx:198-209 | `habits` becomes `ToggleHabitToday` of the old list; invariant kept; each toggled habit's displayed count (line 440) moves by one, down if today was marked and up if not, and every other count is unchanged |
| `Planner.CalendarPlanner.DeleteHabit` | src/components/productivity-hub.jsx:211-213 | `habits` becomes `DeleteHabit` of the old list; invariant kept |
| `Planner.CalendarPlanner.AddResource` | src/components/productivity-hub.jsx:215-228 | `resources` becomes `AddResource` of the old list; invariant kept |
| `Planner.CalendarPlanner.ToggleResource` | src/components/productivity-hub.jsx:230-232 | `resources` becomes `ToggleResource` of the old list; invariant kept |
| `Planner.CalendarPlanner.DeleteResource` | src/components/productivity-hub.jsx:234-236 | `resources` becomes `DeleteResource` of the old list; invariant kept |
| `Scenarios.March2024` | src/components/productivity-hub.jsx:132-140 | `2024-03-01` gives a grid of 31 days starting on Friday |
| `Scenarios.March15thCell` | src/components/productivity-hub.jsx:294 | the 15th cell of March 2024 is labelled `2024-03-15` |
| `Scenarios.LeapFebruaries` | src/components/productivity-hub.jsx:132-140 | February 2024 and February 2000 have 29 days |
| `Scenarios.CommonFebruaries` | src/components/productivity-hub.jsx:132-140 | February 2023 and February 1900 have 28 days |
| `Scenarios.TodoLifecycle` | src/components/productivity-hub.jsx:160-181 | an added todo is its day's only todo; a toggle completes it; a delete empties the list and the day |
| `Scenarios.WriteReportScenario` | src/components/productivity-hub.jsx:160-181 | "Write report" on 2024-03-15 is shown on that day, then completed, then deleted |
| `Scenarios.ReadHabitScenario` | src/components/productivity-hub.jsx:187-209 | habit "Read" marked on one day has that date and count 1; unmarked, no dates and count 0 |

## Left out

- Loading and saving the three lists in `localStorage` (src/components/productivity-hub.jsx:17-60): browser storage and JSON parsing. Data loaded this way is not checked, so `CalendarPlanner.Valid()` holds only for state built by the handlers. The pure operations do not need it.
- The install-prompt flow (src/components/productivity-hub.jsx:63-130): window events, timers, an awaited user choice and `alert`.
- `formatDate` (src/components/productivity-hub.jsx:142-144): locale-dependent `toLocaleDateString`.
- `changeMonth` (src/components/productivity-hub.jsx:263-267): it parses as UTC, shifts the month in local time and formats back in UTC, so its result depends on the time zone.
- The day view's `localeCompare` sort on `startTime` (src/components/productivity-hub.jsx:337): display ordering through a locale-aware library call.
- Rendering, view switching, modal open/close state and `handleDragOver` (src/components/productivity-hub.jsx:150-158, 242-244, 259-698 apart from lines 294, 302 and 440). Modal text enters only as handler arguments.
- The clock (`Date.now()`, `new Date().toISOString()`): the id, today's date and `addedAt` are parameters. Add handlers require a fresh id.
- `Scheduling.UpdateTodo`: the update record has no `id` field. A spread update carrying an `id` would also rename the record in the source, but no call site passes one.
- `Scheduling.UpdateTodo`: `parseInt` of an empty duration input yields `NaN` in the source; the model's duration is always an integer.
- `Calendar.GetDaysInMonth`: requires a `YYYY-MM-DD`-shaped string with a four-digit year and a month 01-12; the day field is free, so a day past the month's end (`2024-02-30`) gives the ordinary grid, as in the source, which reads only the first two fields (lines 133-134). Strings outside this are not modelled: one whose first two fields are not numbers makes the source compute with `NaN`; month 00 or 13 makes it roll into the neighbouring year's December or January; an unpadded field (`2024-3-5`) or a short year such as `999-12-05` gives it an ordinary grid. The source itself only ever selects full dates or, through a click on a day cell of a year below 1000 (line 302), short-year ones; the model gives no grid for the short-year case.
- `Habits.ToggleDateTwice`: for a today that was already marked, it restores the set of dates and the count, not the list order. The source re-appends today at the end.
