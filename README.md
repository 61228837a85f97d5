# hobits core in Dafny

hobits is a habit tracker. A user keeps a list of habits, each with a map
from `YYYY-MM-DD` date strings to a done flag. The application shows streaks,
completion percentages and month calendars. It persists the whole state as
one JSON record in the browser's localStorage, and it reports outcomes
through a queue of toast notifications. This project models the four files
that hold that logic:

- `src/stores/habitStore.ts`, the habit store (module `HabitStore`):
  - the streak walk (`CalculateStreak`), proved against the predicate
    `IsStreak`;
  - the month filter and the statistics query;
  - the actions that edit the list and write it through to storage. They are
    methods of the class `HabitStore.HabitStore`, which holds the habit list,
    the settings and a `LocalStorage` object.
- `src/utils/dateUtils.ts`, the date helpers (module `DateUtils`, on the
  calendar of module `Calendar` and the number rendering of module
  `Decimal`):
  - date formatting, proved injective;
  - the last-n-days and last-n-months windows, as loops;
  - the Monday-first month grid: a method with the source's three loops,
    proved to produce `IsMonthGrid`;
  - the month-name tables.
- `src/utils/storageUtils.ts`, the persistence layer (module `StorageUtils`):
  - the default record;
  - the default-merging load;
  - the save, which goes into a `LocalStorage` class whose item map it
    replaces;
  - the validation of an imported file, with every rejection path.
- `src/stores/toastStore.ts`, the toast queue (module `ToastStore`): class
  `ToastStore.ToastStore` with show, its four shorthands, remove and clear.
  Each scheduled auto-removal is recorded in a ghost multiset.

The records of `src/utils/types.ts` are the datatypes of module `Types`.
Module `Lookup` holds the first-index search by a key (`find`/`findIndex`) and
`splice(index, 1)`, which both stores use. Module `Wrappers` holds
`Option` and `Result`.

Dates are the local calendar fields of a JavaScript `Date`:
- the year;
- the month, 0..11;
- the day of the month.

The type `Calendar.CivilDate` admits only valid field values. "Today" is a
parameter. Stepping `setDate(getDate() - i)` is `Calendar.DaysBefore`, one
`Calendar.PrevDay` at a time. The day numbers of `Calendar.DayNumber` prove
that this steps back exactly one day each time, across month and year ends.

Everything the source takes from the environment arrives as a parameter:
- the clock (`today`, and the `now` timestamp string);
- `generateId`'s result (`id`);
- `Math.random`'s colour pick (`pick`).

Where the source and the plain reading of the application disagree, the
model follows the source:
- an undone today is skipped by the streak;
- `new Date(y, m, 1)` reads years 0..99 as 1900..1999;
- `loadData` returns the defaults when `parsed.settings` is read on `null`;
- `remove` leaves pending timers alone.

## Model

| member | source | states |
|---|---|---|
| Calendar.DaysInMonth | src/utils/dateUtils.ts:40-41 | the last day of a month is 28..31: 29 exactly for February of a leap year, 28 exactly for February otherwise, 30 exactly for April, June, September and November |
| Calendar.Weekday | src/utils/dateUtils.ts:44 | `getDay()` is a weekday 0..6 |
| Calendar.PrevDay | src/stores/habitStore.ts:16-17 | definition of `setDate(getDate() - 1)`: the previous day of the month, or the last day of the previous month, or December 31 of the previous year; its day count is `Calendar.PrevDayNumber` |
| Calendar.DaysBefore | src/utils/dateUtils.ts:13-14 | definition of `setDate(today.getDate() - i)`: `PrevDay` taken `i` times; its properties are `Calendar.DaysBeforeNumber` and `Calendar.DaysBeforeInjective` |
| Calendar.ConstructorYear | src/utils/dateUtils.ts:39 | definition of the `Date` constructor's year rule: a year argument 0..99 means 1900..1999, any other is kept; used by `Calendar.MonthStart` |
| Calendar.PrevDayNumber | src/stores/habitStore.ts:16-17 | stepping back one day with `setDate(getDate() - 1)` lowers the day number by exactly one, across month and year boundaries and on leap days |
| Calendar.PrevDayWeekday | src/utils/dateUtils.ts:44 | the day before has the previous weekday, modulo seven |
| Calendar.DaysBeforeNumber | src/stores/habitStore.ts:16-17 | the date `i` days back has day number `DayNumber(d) - i` |
| Calendar.DaysBeforeInjective | src/stores/habitStore.ts:15-17 | different offsets back from a date give different dates |
| Calendar.MonthStart | src/utils/dateUtils.ts:39 | `new Date(year, month, 1)` is the first of a month, and its month index is twelve times the constructor's year plus `month`, so out-of-range months roll into the year |
| Calendar.EpochIsThursday | src/utils/dateUtils.ts:44 | the day numbering starts at 1970-01-01, a Thursday |
| Decimal.NatStrDigits | src/utils/dateUtils.ts:3-4 | `String(n)` of a natural number is a non-empty run of digits, a single digit exactly when `n < 10` |
| Decimal.NatStr | src/utils/dateUtils.ts:3-4 | definition of `String(n)` for a natural number: its decimal digits, most significant first; properties in `Decimal.NatStrDigits` and `Decimal.NatStrInjective` |
| Decimal.IntStr | src/utils/dateUtils.ts:2-5 | definition of `String(x)` for an integer: a leading '-' before the digits of a negative value; properties in `Decimal.IntStrSign` and `Decimal.IntStrInjective` |
| Decimal.PadStart2 | src/utils/dateUtils.ts:3-4 | definition of `padStart(2, '0')`: zeros in front up to length two; properties in `Decimal.PadStart2Layout` |
| Decimal.Pad2 | src/utils/dateUtils.ts:3-4 | definition of `String(n).padStart(2, '0')`; properties in `Decimal.Pad2Digits` and `Decimal.Pad2Injective` |
| Decimal.IntStrSign | src/utils/dateUtils.ts:2-5 | the year's rendering is non-empty and starts with '-' exactly for negative years |
| Decimal.PadStart2Layout | src/utils/dateUtils.ts:3-4 | `padStart(2, '0')` keeps the string as a suffix, reaches length two at least, and puts only zeros in front |
| Decimal.NatStrInjective | src/utils/dateUtils.ts:3-4 | distinct natural numbers render differently |
| Decimal.IntStrInjective | src/utils/dateUtils.ts:2-5 | distinct years render differently |
| Decimal.Pad2Digits | src/utils/dateUtils.ts:3-4 | below one hundred the padded rendering is exactly the tens digit and the units digit |
| Decimal.Pad2Injective | src/utils/dateUtils.ts:3-4 | distinct month or day numbers below one hundred pad differently |
| Decimal.FourDigits | src/utils/dateUtils.ts:2-5 | a year from 1000 to 9999 renders as four characters |
| DateUtils.DashedPartsInjective | src/utils/dateUtils.ts:5 | a `y-mm-dd` string with two-character parts determines all three parts |
| DateUtils.FormatDate | src/utils/dateUtils.ts:1-6 | definition of `formatDate`: the year, a dash, the 1-based month padded to two places, a dash, the day padded to two places; properties in `DateUtils.FormatDateInjective` and `DateUtils.FormatDateShape` |
| DateUtils.FormatDateInjective | src/utils/dateUtils.ts:1-6 | `formatDate` never gives two different dates the same string, whatever the year |
| DateUtils.FormatDateShape | src/utils/dateUtils.ts:1-6 | with a four-digit year the string is ten characters: the year's four digits, a dash, the 1-based month zero-padded to two digits, a dash, and the day zero-padded to two digits |
| DateUtils.IsTodayExactly | src/utils/dateUtils.ts:114-116 | `isToday` holds for the string of a date exactly when that date is today |
| DateUtils.IsToday | src/utils/dateUtils.ts:114-116 | definition of `isToday`: equality with today's `formatDate` string; its meaning on dates is `DateUtils.IsTodayExactly` |
| DateUtils.GetLastNDays | src/utils/dateUtils.ts:8-19 | `max(n, 0)` strings, oldest first: entry `k` is the date `len - 1 - k` days back, and the last entry is today |
| DateUtils.LastNDaysConsecutive | src/utils/dateUtils.ts:12-16 | consecutive entries of the window are consecutive days |
| DateUtils.StartDayIndex | src/utils/dateUtils.ts:43-45 | the Monday-first column of the first day is `(getDay() + 6) mod 7` |
| DateUtils.GetMonthCalendar | src/utils/dateUtils.ts:37-77 | the result is the Monday-first grid (`IsMonthGrid`) of the month `new Date(year, month, 1)` falls in: rows of seven slots, leading empty slots up to the first weekday, the days 1..last in order with their formatted dates, trailing empty slots, and as few rows as hold them |
| DateUtils.LayOutMonth | src/utils/dateUtils.ts:47-76 | the three loops build exactly that grid from the month and the column of its first day |
| DateUtils.PlaceNext | src/utils/dateUtils.ts:56-65 | one turn of the day loop keeps the rows laid out so far equal to the empty lead followed by days 1..day, with every slot's date matching its day |
| DateUtils.PadWeek | src/utils/dateUtils.ts:49-53 | padding only appends empty day slots with empty date slots, up to the size asked for |
| DateUtils.GridSlots | src/utils/dateUtils.ts:56-72 | in a month grid a day slot is empty exactly when its date slot is, and a filled slot holds a day of the month with that day's `formatDate` string |
| DateUtils.January2025 | src/utils/dateUtils.ts:37-77 | the grid of January 2025 has five rows, and the first row is two empty slots followed by days 1-5 |
| DateUtils.GetMonthName | src/utils/dateUtils.ts:79-85 | the table entry for 0..11, and "January" for any other index |
| DateUtils.GetShortMonthName | src/utils/dateUtils.ts:87-90 | the table entry for 0..11, and "Jan" for any other index |
| DateUtils.GetLastNMonths | src/utils/dateUtils.ts:118-132 | `max(n, 0)` entries, oldest first: entry `k` is the month `len - 1 - k` months back, normalised by the constructor, with its short label |
| DateUtils.GetLast12Months | src/utils/dateUtils.ts:98-112 | twelve entries: entry `k` is the month `11 - k` months back |
| DateUtils.MonthsAgo | src/utils/dateUtils.ts:123-128 | definition of one window entry: the month, year and short label of `new Date(year, month - i, 1)`; properties in `DateUtils.MonthsAgoWellFormed`, `DateUtils.MonthsAgoStep` and `DateUtils.MonthsAgoZero` |
| DateUtils.MonthsAgoWellFormed | src/utils/dateUtils.ts:123-128 | every entry names a month 0..11 and carries that month's short label |
| DateUtils.MonthsAgoStep | src/utils/dateUtils.ts:122-129 | each entry is the month after the one before it, December rolling over to January of the next year |
| DateUtils.MonthsAgoZero | src/utils/dateUtils.ts:123-127 | outside years 0..99 the newest entry is the current month of the current year |
| Lookup.IndexOf | src/stores/habitStore.ts:115 | `findIndex`: no index exactly when no element matches; otherwise the index of a match with no match before it |
| Lookup.KeysOf | src/stores/habitStore.ts:115 | definition of the key projection that `findIndex` compares against the id; properties stated in `Lookup.FindBy` |
| Lookup.FindBy | src/stores/habitStore.ts:115 | `findIndex` by a key: none exactly when no element has the key; otherwise the index of an element with it and no such element before it |
| Lookup.RemoveAt | src/stores/habitStore.ts:117 | `splice(index, 1)`: one element shorter, the elements before the index kept, the elements after it shifted down by one |
| Lookup.RemoveAtMultiset | src/stores/habitStore.ts:117 | the removal takes out exactly the element at the index and nothing else |
| StorageUtils.MergeSettings | src/utils/storageUtils.ts:29 | `{ ...defaults, ...parsed.settings }`: each key present overrides and each absent key keeps the default; no settings object keeps all defaults |
| StorageUtils.DefaultDataAsDeclared | src/utils/storageUtils.ts:13-19 | the constants `DefaultData` and `DefaultSettings` are `defaultData`: no habits, the dark theme, weeks starting on Monday; no stored item and the empty string both load as this record (the full load behaviour is `LoadFrom`'s ensures) |
| StorageUtils.LoadFrom | src/utils/storageUtils.ts:21-35 | `loadData`: the defaults for no item, the empty string, unparsable text, `null` and a scalar; for an object, its `habits` or none, and its settings merged over the defaults |
| StorageUtils.LoadKeepsDefaultFirstDay | src/utils/storageUtils.ts:26-30 | a loaded record whose settings lack `firstDayOfWeek` starts weeks on Monday |
| StorageUtils.Serialize | src/utils/storageUtils.ts:39 | `JSON.stringify` of a record yields an object that `loadData` reads back as the same record |
| StorageUtils.LocalStorage.GetItem | src/utils/storageUtils.ts:23 | `getItem` when it does not throw: the stored item exactly when the key is present, `null` otherwise |
| StorageUtils.LocalStorage.LoadData | src/utils/storageUtils.ts:21-35 | `loadData` against this storage: the defaults when `getItem` throws (caught) or the key is absent, otherwise `LoadFrom` of the stored item |
| StorageUtils.LocalStorage.SaveData | src/utils/storageUtils.ts:37-43 | `saveData` stores the serialised record under the key and changes nothing when `setItem` throws; after a successful save, with reading allowed, `loadData` returns the record |
| StorageUtils.ValidateHabits | src/utils/storageUtils.ts:72-76 | accepted exactly when every element has an id and a name, and then the same habits in order; otherwise the first rejected element decides the error (`TypeError` for `null`, "id and name are required" otherwise) |
| StorageUtils.Accepted | src/utils/storageUtils.ts:73 | definition of the per-element test: the element is a habit record whose `id` and `name` are both truthy; `ValidateHabits` ensures acceptance exactly when every element passes it |
| StorageUtils.ItemError | src/utils/storageUtils.ts:73-74 | definition of the exception a rejected element raises: the `TypeError` of reading `.id` on `null`, otherwise "id and name are required"; `ValidateHabits` ensures the first rejected element's error is the one reported |
| StorageUtils.ImportResult | src/utils/storageUtils.ts:62-89 | the read error, the parse error, the `null` root and a missing or non-array `habits` each reject with their own error, and an array with a rejected element rejects with the error `ValidateHabits` gives for the first one; the import resolves exactly when `habits` is an array of accepted elements, with those habits and the imported settings merged over the defaults |
| StorageUtils.LocalStorage.ImportData | src/utils/storageUtils.ts:58-92 | the settled value is `ImportResult`; storage changes only when the import resolves and the save succeeds, and then, with reading allowed, `loadData` returns the imported record |
| HabitStore.TrueKeysBound | src/stores/habitStore.ts:71-73 | there are never more completed dates than recorded dates |
| HabitStore.TrueKeys | src/stores/habitStore.ts:73 | definition of the dates whose value is `true`, so that `completionValues.filter(v => v === true).length` is their number; `GetHabitStats` ensures `completed` is that number and `TrueKeysBound` bounds it by the number of entries |
| HabitStore.DayKey | src/stores/habitStore.ts:16-18 | definition of the key the walk reads `i` days back, one day at a time; `HabitStore.DayKeyIsFormatted` shows it is `formatDate` of that date |
| HabitStore.DayKeyIsFormatted | src/stores/habitStore.ts:16-18 | the key looked up `i` days back is `formatDate` of the date `i` days before today |
| HabitStore.DayKeyInjective | src/stores/habitStore.ts:15-18 | different iterations of the walk look up different keys |
| HabitStore.StreakUnique | src/stores/habitStore.ts:11-30 | a habit has one streak on a given day |
| HabitStore.KeyRangeSize | src/stores/habitStore.ts:15-18 | `n` consecutive days of the walk look up `n` distinct keys |
| HabitStore.RunBound | src/stores/habitStore.ts:20-21 | a run of `n` done days is no longer than the number of completed dates |
| HabitStore.StreakBound | src/stores/habitStore.ts:15-27 | a streak never exceeds the number of completed dates, which is why the unbounded loop ends |
| HabitStore.CalculateStreak | src/stores/habitStore.ts:11-30 | the returned count is the streak: counting from today when today is done, from yesterday otherwise, every counted day is done and the day before them is not; it is at most the number of completed dates |
| HabitStore.StreakOfTwo | src/stores/habitStore.ts:11-30 | today and yesterday done and the day before not: the streak is two |
| HabitStore.StreakFromYesterday | src/stores/habitStore.ts:22-24 | only yesterday recorded as done: today is skipped and the streak is one |
| HabitStore.NoStreak | src/stores/habitStore.ts:22-25 | only today recorded, as not done: the streak is zero |
| HabitStore.FindHabit | src/stores/habitStore.ts:46 | `find` by id, defined as `Lookup.FindBy` on the habit's id; its properties are `FindBy`'s |
| HabitStore.DeleteRemovesId | src/stores/habitStore.ts:114-120 | with unique ids, deleting by id leaves no habit with that id, keeps the rest unique, and removes exactly that one habit |
| HabitStore.PickColor | src/stores/habitStore.ts:96-97 | the colour is always in the palette: the picked entry, or the first colour for an index outside it |
| HabitStore.ToggleAt | src/stores/habitStore.ts:133-137 | a truthy date becomes `false` and any other date `true`; every other entry is kept and no key is removed |
| HabitStore.ToggleTwice | src/stores/habitStore.ts:133-137 | toggling twice restores a recorded date, and leaves an unrecorded one recorded as not done |
| HabitStore.ApplyUpdate | src/stores/habitStore.ts:125 | `Object.assign(habit, updates, { updatedAt })`: each key given overrides, each key left out is kept, and `updatedAt` is always the clock |
| HabitStore.UpdateOverridesUpdatedAt | src/stores/habitStore.ts:125 | an `updatedAt` among the caller's keys has no effect |
| HabitStore.EmptyUpdate | src/stores/habitStore.ts:125 | an update without keys only refreshes the timestamp |
| HabitStore.FullUpdate | src/stores/habitStore.ts:125 | an update with every key replaces every field, `updatedAt` by the clock |
| HabitStore.Percentage | src/stores/habitStore.ts:75 | zero without entries; otherwise the nearest integer to `100 * completed / total`, halves up; 0..100 when no more are completed than recorded, and 100 when all are |
| HabitStore.InMonthKeysUpTo | src/stores/habitStore.ts:53-54 | the keys of days 1..n of a month are the strings of exactly those dates |
| HabitStore.InMonthKeys | src/stores/habitStore.ts:50-54 | a date's string is among the month's keys exactly when the date lies in that month |
| HabitStore.HabitStore.constructor | src/stores/habitStore.ts:33-37 | a fresh store has no habits, the dark theme and Monday first |
| HabitStore.HabitStore.Snapshot | src/stores/habitStore.ts:89-92 | definition of the record `saveToStorage` writes: the habit list and the settings |
| HabitStore.HabitStore.GetHabitById | src/stores/habitStore.ts:40-42 | nothing exactly when no habit has the id; otherwise the first habit with it |
| HabitStore.HabitStore.GetHabitCompletionsByMonth | src/stores/habitStore.ts:44-62 | empty for an unknown id; otherwise the habit's entries restricted to the dates of the month `new Date(year, month, 1)` falls in, values unchanged |
| HabitStore.HabitStore.GetHabitStats | src/stores/habitStore.ts:64-79 | zeros for an unknown id; otherwise the number of entries, the number of done dates, the streak on `today` and their percentage, with `0 <= completed <= total` and the percentage in 0..100 |
| HabitStore.HabitStore.LoadFromStorage | src/stores/habitStore.ts:82-86 | the store's habits and settings become what `loadData` returns; when reading storage throws, that is no habits and the default settings |
| HabitStore.HabitStore.SaveToStorage | src/stores/habitStore.ts:88-93 | the stored record becomes the store's state (unless `setItem` throws), and, with reading allowed, loading it back yields that state |
| HabitStore.HabitStore.AddHabit | src/stores/habitStore.ts:95-112 | the returned habit has the given id and name, a palette colour, no completions, empty notes and both timestamps `now`; it is appended, ids stay unique when the new one is fresh, and the state is saved |
| HabitStore.HabitStore.DeleteHabit | src/stores/habitStore.ts:114-120 | an unknown id changes nothing, storage included; otherwise the first habit with the id is spliced out and the state saved |
| HabitStore.HabitStore.UpdateHabit | src/stores/habitStore.ts:122-128 | an unknown id changes nothing, storage included; otherwise only the first habit with the id changes, to `ApplyUpdate`, and the state is saved |
| HabitStore.HabitStore.ToggleCompletion | src/stores/habitStore.ts:130-141 | an unknown id changes nothing, storage included; otherwise only that habit changes, its completions toggled at the date and its `updatedAt` set, and the state is saved |
| HabitStore.HabitStore.SetNotes | src/stores/habitStore.ts:143-150 | an unknown id changes nothing, storage included; otherwise only that habit's notes and `updatedAt` change, and the state is saved |
| HabitStore.HabitStore.SetHabits | src/stores/habitStore.ts:152-155 | the list is replaced, the settings kept, and the state saved |
| ToastStore.FindToast | src/stores/toastStore.ts:50 | `findIndex` by id, defined as `Lookup.FindBy` on the toast's id; its properties are `FindBy`'s |
| ToastStore.ShowThenRemove | src/stores/toastStore.ts:49-54 | removing a just-shown toast whose id is fresh restores the queue |
| ToastStore.RemoveKeepsOthers | src/stores/toastStore.ts:49-54 | removal by id takes out exactly the first toast with the id and keeps the others |
| ToastStore.ToastStore.constructor | src/stores/toastStore.ts:12 | the queue starts empty with no timers pending |
| ToastStore.ToastStore.Show | src/stores/toastStore.ts:18-31 | appends a toast with the id, the message, type "info" and duration 3000 unless given; schedules a removal exactly when the duration is positive; returns the id |
| ToastStore.ToastStore.Success | src/stores/toastStore.ts:33-35 | a success toast, 3000 unless a duration is given |
| ToastStore.ToastStore.Error | src/stores/toastStore.ts:37-39 | an error toast, 5000 unless a duration is given |
| ToastStore.ToastStore.Warning | src/stores/toastStore.ts:41-43 | a warning toast, 3000 unless a duration is given |
| ToastStore.ToastStore.Info | src/stores/toastStore.ts:45-47 | an info toast, 3000 unless a duration is given |
| ToastStore.ToastStore.Remove | src/stores/toastStore.ts:49-54 | the first toast with the id is spliced out; an unknown id changes nothing |
| ToastStore.ToastStore.Clear | src/stores/toastStore.ts:56-58 | the queue becomes empty |
| ToastStore.ToastStore.TimerFires | src/stores/toastStore.ts:25-27 | a scheduled removal fires once, and it removes the toast when it is still there and is otherwise harmless |

## Left out

- `generateId` (both stores) combines `Date.now()` and `Math.random()`, so its result is a parameter (`id`). Uniqueness of ids is a premise where a property needs it.
- `Math.random` in `addHabit` is the `pick` parameter. The clock is the `today` date and the `now` timestamp.
- HabitStore.HabitStore.AddHabit: the two `new Date().toISOString()` reads are collapsed into one `now`, so both timestamps are equal. ISO strings are opaque text.
- HabitStore.ApplyUpdate: a key present in the update with the value `undefined` is not modelled. `Object.assign` copies such a key, so `updateHabit(id, { notes: undefined })` leaves `notes` undefined. `HabitUpdate` has one `None` case, read as "key left out", so the model keeps the old value instead.
- HabitStore.Percentage: the source rounds a floating-point product with `Math.round`. The model rounds the exact ratio half up, so it can differ where the double product falls just below an exact half.
- HabitStore.StreakOfTwo, HabitStore.StreakFromYesterday and HabitStore.NoStreak take `IsStreak` as a premise, because a lemma cannot call the method. `CalculateStreak` ensures that premise for its own result.
- DateUtils.MonthsAgoZero excludes years 0..99. There the `Date` constructor reads the year as 1900 + year, and the source's own result is not the current year (this is modelled in `Calendar.ConstructorYear`).
- `getDayName` and `getDayNumber` parse a date string in UTC and read it back in local time. That depends on the time zone, so both are left out.
- `exportData` only builds a Blob download link: DOM, URL and file I/O.
- The `FileReader` wiring of `importData`, and the promise itself. The `onload` and `onerror` bodies are modelled in StorageUtils.LocalStorage.ImportData over an `ImportFile` value.
- JSON is pictured by what `JSON.parse` yields. Not modelled:
  - unknown extra keys;
  - ill-typed values (a `habits` that is not a list of habits in a stored record, a non-boolean completion);
  - the index keys that spreading a stored array or string adds.
- StorageUtils.ValidateHabits represents an absent, empty or otherwise falsy `id` or `name` by the empty string.
- StorageUtils.ImportResult: an imported element that passes the id and name test is modelled as a complete `Habit` with string fields. The source stores any such element as it is. Accepted elements that are incomplete (no `color`, `completions`, `notes` or timestamps) or ill-typed (a numeric `id`) are not modelled. Nor is the later failure of `getHabitStats` on a habit without `completions`.
- `firstDayOfWeek` is restricted by its type to 0 or 1, as the record declares. A stored out-of-range number is not modelled.
- `console.error` calls in the catch blocks are logging only.
- `setTimeout` is not modelled, nor when a timer fires. Each scheduled removal is an element of the ghost multiset `pending`, and `TimerFires` is its callback, callable once per scheduled timer.
- Pinia and Vue reactivity, `computed` wrappers, the router, the PWA composable and the components are outside the core.
- Object identity: habits are values. Aliasing between a habit returned by `getHabitById` and the list, and between `defaultData` and a loaded record, is not modelled.
- The platform `Date` range, daylight-saving transitions, and non-integer arguments are not modelled. `String(n)` is modelled for integers, not for numbers whose rendering switches to exponent notation.
