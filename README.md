# HappyMod habit and mood tracker — a Dafny model of its core

HappyMod is a desktop habit and mood tracker. A weekly table lists the user's habits with one
check box per day, followed by a "Daily Mood" row where each day gets one emoji from a
five-step scale. An analysis page turns the stored data into short Indonesian-language
insights. The repository holds two generations of the program:

* the **main tree** (`src/main/java/app`, modules `App…` here): facades that validate input,
  notify observers and sit on JDBC repositories; a completion set for habits; an upserting mood
  store; an insight service drawing seven generators in a shuffled order; and the weekly view;
* the **legacy tree** (`src/com/project/app`, modules `Legacy…` here): an older habit facade
  without name validation, repositories that keep a completion *flag* per (habit, day), and a
  habit–mood impact analysis built on three SQL queries.

The model replaces the database with in-memory state inside each repository class:

* the `habits` table is a map from id to name plus the next SERIAL value;
* the main tree's `habit_logs` is a set of (habit, day) pairs; the legacy tree's is a map from
  (habit, day) to the `is_completed` flag;
* the `mood` table is a sequence of rows in id (insertion) order.

Every JDBC call that can throw an `SQLException` gets an explicit `fault` parameter. It is a
`bool`, or the index of the row at which the driver throws while a `while (rs.next())` loop
copies a result set (`Common.Cut`/`Common.ReadRows`), or, for the two-statement mood upsert,
which of its statements throws (`MoodTable.UpsertFault`). Each repository keeps a ghost
`writes` trace of the mutating calls it received. Each facade keeps its `observers` and a
`notified` trace of `onDataChanged` deliveries. Together these state the facades' "one store
call, then notify" rules. Dates are day numbers (`Common.Date`). The clock (`today`) and the
shuffle (`perm`) are parameters.

Modules: `Common` (rows, `trim`, filters, result-set prefixes), `HabitTable` (the id-ordered
listing), `MoodTable` (the mood table's operations and their laws, shared by both trees), and
one module per core source file: `AppHabitRepository`, `AppMoodRepository`, `AppHabitFacade`,
`AppMoodFacade`, `AppAnalysis`, `AppTrackerView`, `LegacyHabitRepository`,
`LegacyMoodRepository`, `LegacyHabitFacade`, `LegacyAnalysisRepository` and
`LegacyAnalysisService`.

The main tree's `MoodFacade` calls `createMood`, `updateMood`, `deleteMood` and `getAllMood`.
Its `MoodRepository` (src/main/java/app/repository/MoodRepository.java) does not define them.
`AppMoodRepository` gives them the legacy tree's semantics.

## Model

| member | source | states |
|---|---|---|
| Common.TrimEmptyIffBlank | src/main/java/app/facade/HabitFacade.java:37 | `trim()` yields the empty string exactly when every character is at most `' '` |
| Common.Trim | src/main/java/app/facade/HabitFacade.java:37 | `trim()` is never longer than its input, and a non-empty result starts and ends with a character above `' '` |
| Common.FilterKeepsAscending | src/com/project/app/service/AnalysisService.java:34-36 | a stream `filter` keeps the order of what it keeps: an ascending list stays ascending |
| Common.Cut | src/main/java/app/repository/HabitRepository.java:56-66 | a list copied from a result set is a prefix of it: all rows without a driver failure, exactly the rows before the failing one otherwise |
| Common.ReadRows | src/main/java/app/repository/HabitRepository.java:58-63 | the `while (rs.next())` copy loop returns that prefix |
| HabitTable.ListingIsTableInIdOrder | src/main/java/app/repository/HabitRepository.java:52-68 | `ORDER BY id ASC` lists every habit once with its name, in strictly ascending id order, nothing else, as many rows as habits |
| HabitTable.Listing | src/main/java/app/repository/HabitRepository.java:54 | `SELECT * FROM habits ORDER BY id ASC`: strictly ascending ids, and a habit is listed iff the table holds it with that name |
| AppHabitRepository.Marked | src/main/java/app/repository/HabitRepository.java:115-141 | after marking (h, d), the pair is present iff the status is true; every other pair is as before |
| AppHabitRepository.MarkedTwice | src/main/java/app/repository/HabitRepository.java:116-140 | a second marking of the same pair overrides the first, so re-checking (`ON CONFLICT DO NOTHING`) or re-removing is idempotent |
| AppHabitRepository.HabitRepository.CreateHabit | src/main/java/app/repository/HabitRepository.java:20-30 | true iff no failure; on success one habit with an unused id (the SERIAL value) and the given name is added; on failure the table is unchanged |
| AppHabitRepository.HabitRepository.GetHabitById | src/main/java/app/repository/HabitRepository.java:33-49 | the habit with that id, or null when there is none or the query fails |
| AppHabitRepository.HabitRepository.GetAllHabits | src/main/java/app/repository/HabitRepository.java:52-68 | the id-ordered listing, cut at a driver failure; strictly ascending ids, only stored habits, and every habit when nothing fails |
| AppHabitRepository.HabitRepository.UpdateHabit | src/main/java/app/repository/HabitRepository.java:71-82 | true iff no failure, also when no row has the id; only an existing id is renamed |
| AppHabitRepository.HabitRepository.DeleteHabit | src/main/java/app/repository/HabitRepository.java:85-95 | true iff no failure, also for a missing id; the id is removed |
| AppHabitRepository.HabitRepository.IsHabitDone | src/main/java/app/repository/HabitRepository.java:101-112 | true iff the query succeeds and the pair is in `habit_logs` |
| AppHabitRepository.HabitRepository.SetHabitStatus | src/main/java/app/repository/HabitRepository.java:115-141 | true iff no failure; on success the completion set is marked, on failure it is unchanged; habits untouched |
| AppHabitRepository.StatusReadsBack | src/main/java/app/repository/HabitRepository.java:101-141 | after a successful `setHabitStatus(h, d, b)`, `isHabitDone(h, d)` returns b and any other pair reads as before |
| AppHabitRepository.HabitRepository.constructor | src/main/java/app/repository/HabitRepository.java:15-17 | a repository over empty tables, no writes yet |
| LegacyHabitRepository.Flag | src/com/project/app/repository/HabitRepository.java:103-116 | `isHabitDone` is true only for a stored row whose flag is true; a missing row reads false |
| LegacyHabitRepository.UpsertFlagTwice | src/com/project/app/repository/HabitRepository.java:119-131 | the flag upsert keeps one row per pair, the later write wins and reads back, and other pairs keep their flags |
| LegacyHabitRepository.HabitRepository.CreateHabit | src/com/project/app/repository/HabitRepository.java:20-30 | as in the main tree: true iff no failure, one habit with an unused id on success |
| LegacyHabitRepository.HabitRepository.GetHabitById | src/com/project/app/repository/HabitRepository.java:33-49 | the habit with that id, or null |
| LegacyHabitRepository.HabitRepository.GetAllHabits | src/com/project/app/repository/HabitRepository.java:52-68 | the id-ordered listing cut at a driver failure, strictly ascending |
| LegacyHabitRepository.HabitRepository.UpdateHabit | src/com/project/app/repository/HabitRepository.java:71-83 | true iff no failure, even when no row matches |
| LegacyHabitRepository.HabitRepository.DeleteHabit | src/com/project/app/repository/HabitRepository.java:86-96 | true iff no failure, even when no row matches |
| LegacyHabitRepository.HabitRepository.IsHabitDone | src/com/project/app/repository/HabitRepository.java:103-116 | true iff the query succeeds and the stored flag is true |
| LegacyHabitRepository.HabitRepository.SetHabitStatus | src/com/project/app/repository/HabitRepository.java:119-131 | returns nothing; the pair's flag becomes the status, or nothing changes on failure |
| LegacyHabitRepository.StatusReadsBack | src/com/project/app/repository/HabitRepository.java:103-131 | after `setHabitStatus(h, d, s)`, `isHabitDone(h, d) == s`; other pairs read as before |
| LegacyHabitRepository.HabitRepository.constructor | src/com/project/app/repository/HabitRepository.java:15-17 | a repository over empty tables, no writes yet |
| MoodTable.FirstOnDate | src/com/project/app/repository/MoodRepository.java:19-29 | the lookup by date returns the first row of that date in table order, or null when the date has none |
| MoodTable.OnDate | src/main/java/app/repository/MoodRepository.java:17 | `WHERE date = ?` selects a row iff it has that date |
| MoodTable.OffDate | src/main/java/app/repository/MoodRepository.java:31 | `DELETE … WHERE date = ?` keeps a row iff its date is another one |
| MoodTable.Upserted | src/main/java/app/repository/MoodRepository.java:28-52 | after a completed upsert, the rows of other dates are exactly the old ones, and the date holds exactly the new row when the value is positive, none otherwise |
| MoodTable.Appended | src/com/project/app/repository/MoodRepository.java:52-63 | `createMood` adds exactly one row, the new one, and keeps every old row |
| MoodTable.WithoutId | src/com/project/app/repository/MoodRepository.java:100-110 | `DELETE … WHERE id = ?` keeps a row iff its id is another one |
| MoodTable.Revalued | src/com/project/app/repository/MoodRepository.java:87-98 | `UPDATE … WHERE id = ?` keeps every row, id and date, and changes only the value of row `id` |
| MoodTable.UpsertSetsDate | src/main/java/app/repository/MoodRepository.java:36-46 | after an upsert the date holds exactly the new row with value v, or no row when v ≤ 0 |
| MoodTable.UpsertKeepsOtherDates | src/main/java/app/repository/MoodRepository.java:31-38 | the delete is scoped to the date: every other date keeps exactly its rows |
| MoodTable.UpsertTwice | src/main/java/app/repository/MoodRepository.java:28-52 | two equal upserts give the table of one upsert (up to the id the sequence hands out) |
| MoodTable.UpsertKeepsOnePerDate | src/main/java/app/repository/MoodRepository.java:28-52 | an upsert keeps the table at most one row per date |
| MoodTable.CreateOnOccupiedDate | src/com/project/app/repository/MoodRepository.java:52-63 | `createMood` on a date that has a row adds one more and so breaks one-row-per-date |
| MoodTable.FirstOnDateIsTheEntry | src/main/java/app/repository/MoodRepository.java:16-26 | on a table with one row per date, the lookup returns that date's row |
| MoodTable.UpsertResult | src/main/java/app/repository/MoodRepository.java:28-52 | a failing DELETE leaves the table; a completed upsert gives the upserted table; an INSERT failing after the DELETE leaves the date empty; other dates are never touched |
| MoodTable.UpsertKeepsWellFormed | src/main/java/app/repository/MoodRepository.java:36-46 | ids stay unique, ascending and below the sequence |
| MoodTable.AppendKeepsWellFormed | src/com/project/app/repository/MoodRepository.java:52-63 | the same for `createMood` |
| MoodTable.WithoutIdKeepsWellFormed | src/com/project/app/repository/MoodRepository.java:100-110 | the same for `deleteMood` |
| MoodTable.RevaluedKeepsWellFormed | src/com/project/app/repository/MoodRepository.java:87-98 | the same for `updateMood` |
| MoodTable.WithoutIdRemovesOnlyThatRow | src/com/project/app/repository/MoodRepository.java:100-110 | `deleteMood(id)` removes exactly the row with that id, keeps all others, and shortens the table by one iff the id was there |
| MoodTable.ByDateDesc | src/com/project/app/repository/MoodRepository.java:67 | `ORDER BY date DESC` is a permutation of the table in non-increasing date order |
| MoodTable.CutKeepsDescending | src/com/project/app/repository/MoodRepository.java:65-85 | a list cut short by a driver failure is still in descending date order |
| AppMoodRepository.MoodRepository.GetMoodByDate | src/main/java/app/repository/MoodRepository.java:16-26 | a row of that date, the first in table order; null iff the query fails or the date has no row |
| AppMoodRepository.MoodRepository.UpsertMood | src/main/java/app/repository/MoodRepository.java:28-52 | true iff both steps complete; the new table is `UpsertResult` of the failure; a new id is used iff a row was inserted |
| AppMoodRepository.MoodRepository.CreateMood | src/com/project/app/repository/MoodRepository.java:52-63 | one row with a new id appended, no delete before; unchanged on failure |
| AppMoodRepository.MoodRepository.GetAllMood | src/com/project/app/repository/MoodRepository.java:65-85 | the date-descending listing cut at a driver failure; in descending order; all rows when nothing fails |
| AppMoodRepository.MoodRepository.UpdateMood | src/com/project/app/repository/MoodRepository.java:87-98 | only row `id` gets the new value; unchanged on failure |
| AppMoodRepository.MoodRepository.DeleteMood | src/com/project/app/repository/MoodRepository.java:100-110 | only row `id` is removed; unchanged on failure |
| AppMoodRepository.UpsertReadsBack | src/main/java/app/repository/MoodRepository.java:16-52 | after a successful upsert the lookup reads back value v on that date (null for v ≤ 0), and any other date reads as before |
| AppMoodRepository.MoodRepository.constructor | src/main/java/app/repository/MoodRepository.java:12-14 | a repository over an empty mood table, no writes yet |
| LegacyMoodRepository.MoodRepository.GetMoodByDate | src/com/project/app/repository/MoodRepository.java:19-29 | a row with that date, or null |
| LegacyMoodRepository.MoodRepository.UpsertMood | src/com/project/app/repository/MoodRepository.java:31-50 | delete the date's rows, then insert if v > 0; returns nothing; the table is `UpsertResult` of the failure |
| LegacyMoodRepository.MoodRepository.CreateMood | src/com/project/app/repository/MoodRepository.java:52-63 | appends one row without deleting |
| LegacyMoodRepository.MoodRepository.GetAllMood | src/com/project/app/repository/MoodRepository.java:65-85 | the date-descending listing, cut at a driver failure |
| LegacyMoodRepository.MoodRepository.UpdateMood | src/com/project/app/repository/MoodRepository.java:87-98 | changes only the value of row `id` |
| LegacyMoodRepository.MoodRepository.DeleteMood | src/com/project/app/repository/MoodRepository.java:100-110 | removes only row `id` |
| LegacyMoodRepository.CreateBreaksOnePerDate | src/com/project/app/repository/MoodRepository.java:52-63 | after `createMood` on an occupied date that date has one row more, at least two, unlike after any upsert |
| LegacyMoodRepository.MoodRepository.constructor | src/com/project/app/repository/MoodRepository.java:15-17 | a repository over an empty mood table, no writes yet |
| AppHabitFacade.IsValidName | src/main/java/app/facade/HabitFacade.java:37-39 | a name passes iff it is not null and not blank after `trim()` |
| AppHabitFacade.HabitFacade.constructor | src/main/java/app/facade/HabitFacade.java:19-21 | the given repository, no observers |
| AppHabitFacade.HabitFacade.AddObserver | src/main/java/app/facade/HabitFacade.java:25-27 | appends the observer (duplicates allowed), notifies nobody |
| AppHabitFacade.HabitFacade.NotifyObservers | src/main/java/app/facade/HabitFacade.java:29-33 | every registered observer is called once, in registration order |
| AppHabitFacade.HabitFacade.AddHabit | src/main/java/app/facade/HabitFacade.java:36-49 | an invalid name returns false with no store call and no notification; a valid one makes exactly one `createHabit` with the untrimmed name, returns its flag, and notifies all observers iff it is true; a false result leaves the habits as they were; the completion set is never touched |
| AppHabitFacade.HabitFacade.UpdateHabit | src/main/java/app/facade/HabitFacade.java:51-60 | no name check; one `updateHabit`, its flag returned, observers notified iff true; only an existing id is renamed; the completion set is untouched |
| AppHabitFacade.HabitFacade.DeleteHabit | src/main/java/app/facade/HabitFacade.java:62-70 | one `deleteHabit`, its flag returned, observers notified iff true; the id is removed on success; the completion set is untouched |
| AppHabitFacade.HabitFacade.GetHabits | src/main/java/app/facade/HabitFacade.java:72-74 | the store's listing; no state change |
| AppHabitFacade.HabitFacade.GetHabit | src/main/java/app/facade/HabitFacade.java:76-78 | the store's answer for the id |
| AppHabitFacade.HabitFacade.GetHabitStatus | src/main/java/app/facade/HabitFacade.java:83-85 | the store's completion answer |
| AppHabitFacade.HabitFacade.UpdateHabitStatus | src/main/java/app/facade/HabitFacade.java:88-90 | forwards the arguments unchanged to `setHabitStatus`, drops its flag, notifies nobody |
| LegacyHabitFacade.HabitFacade.constructor | src/com/project/app/facade/HabitFacade.java:15-17 | a new repository of its own, empty, no observers |
| LegacyHabitFacade.HabitFacade.AddObserver | src/com/project/app/facade/HabitFacade.java:21-23 | appends the observer |
| LegacyHabitFacade.HabitFacade.NotifyObservers | src/com/project/app/facade/HabitFacade.java:25-29 | every observer once, in registration order |
| LegacyHabitFacade.HabitFacade.AddHabit | src/com/project/app/facade/HabitFacade.java:32-41 | no validation: any name, "" included, reaches `createHabit`; its flag is returned, and observers are notified iff it is true; the flags in `habit_logs` are untouched |
| LegacyHabitFacade.HabitFacade.UpdateHabit | src/com/project/app/facade/HabitFacade.java:43-52 | the store's flag, notify iff true; only an existing id is renamed; the flags in `habit_logs` are untouched |
| LegacyHabitFacade.HabitFacade.DeleteHabit | src/com/project/app/facade/HabitFacade.java:54-62 | the store's flag, notify iff true; the id is removed on success; the flags in `habit_logs` are untouched |
| LegacyHabitFacade.HabitFacade.GetHabits | src/com/project/app/facade/HabitFacade.java:64-66 | the store's listing |
| LegacyHabitFacade.HabitFacade.GetHabit | src/com/project/app/facade/HabitFacade.java:68-70 | the store's answer for the id |
| LegacyHabitFacade.HabitFacade.GetHabitStatus | src/com/project/app/facade/HabitFacade.java:75-77 | true iff the query succeeds and the stored flag is true |
| LegacyHabitFacade.HabitFacade.UpdateHabitStatus | src/com/project/app/facade/HabitFacade.java:80-82 | delegates the flag upsert, notifies nobody |
| AppMoodFacade.IsMoodValue | src/main/java/app/facade/MoodFacade.java:41 | the guard of `saveMood`, `addMood` and `updateMood`: a value is accepted iff it lies in 1..5 |
| AppMoodFacade.MoodFacade.constructor | src/main/java/app/facade/MoodFacade.java:21-23 | the testing constructor: the given repository, no observers, nobody notified |
| AppMoodFacade.MoodFacade.AddObserver | src/main/java/app/facade/MoodFacade.java:27-29 | appends the observer |
| AppMoodFacade.MoodFacade.NotifyObservers | src/main/java/app/facade/MoodFacade.java:31-35 | every observer once, in registration order |
| AppMoodFacade.MoodFacade.SaveMood | src/main/java/app/facade/MoodFacade.java:39-46 | a value outside 1..5 (0 included) makes no store call and no notification; a value in 1..5 makes exactly one `upsertMood(value, date)` and then notifies every observer whatever the store did |
| AppMoodFacade.MoodFacade.AddMood | src/main/java/app/facade/MoodFacade.java:48-55 | the same guard, one `createMood`, then notify unconditionally |
| AppMoodFacade.MoodFacade.UpdateMood | src/main/java/app/facade/MoodFacade.java:57-63 | the same guard on the new value, one `updateMood`, then notify |
| AppMoodFacade.MoodFacade.DeleteMood | src/main/java/app/facade/MoodFacade.java:65-68 | no guard: always one `deleteMood` and always notify |
| AppMoodFacade.MoodFacade.GetMood | src/main/java/app/facade/MoodFacade.java:72-74 | the store's lookup unchanged |
| AppMoodFacade.MoodFacade.GetAllMood | src/main/java/app/facade/MoodFacade.java:76-78 | the store's listing unchanged, in descending date order |
| AppAnalysis.DayName | src/main/java/app/service/AnalysisService.java:104 | the Indonesian full name of each weekday, never empty |
| AppAnalysis.DayNamesDistinct | src/main/java/app/service/AnalysisService.java:104 | different weekdays get different names |
| AppAnalysis.NatStringRoundTrip | src/main/java/app/service/AnalysisService.java:67-68 | `%d` of a count reads back as the count |
| AppAnalysis.NatString | src/main/java/app/service/AnalysisService.java:67-68 | `%d` of a count is a non-empty string of decimal digits |
| AppAnalysis.IntString | src/main/java/app/service/AnalysisService.java:67-68 | `%d` of a negative int is a minus sign before the digits of its magnitude |
| AppAnalysis.Join | src/main/java/app/service/AnalysisService.java:79 | `String.join` of no names is empty, of one name is that name, and starts with the first name |
| AppAnalysis.Int32 | src/main/java/app/service/AnalysisService.java:66 | the 32-bit two's-complement value: in range, congruent modulo 2^32, the identity in range |
| AppAnalysis.JavaDiv | src/main/java/app/service/AnalysisService.java:66 | integer division rounding toward zero |
| AppAnalysis.ConsistencyPercentValue | src/main/java/app/service/AnalysisService.java:64-66 | without overflow the percentage is `count*100/7` rounded down, 0..100 for up to seven days, 3 → 42 |
| AppAnalysis.ConsistencyPercentOverflows | src/main/java/app/service/AnalysisService.java:66 | `count * 100` is an int product: a count of 21474837 gives a negative percentage |
| AppAnalysis.ConsistencyPercent | src/main/java/app/service/AnalysisService.java:66 | whatever the count, the wrapped product divided by seven lies within the int range divided by seven; without overflow it is `count*100/7` |
| AppAnalysis.AnalyzeHabitConsistency | src/main/java/app/service/AnalysisService.java:56-71 | a text iff a habit is picked and it was logged on at least one of the seven days ending today |
| AppAnalysis.AnalyzeHabitsWithHighMood | src/main/java/app/service/AnalysisService.java:73-82 | a text iff the limit-3 good-mood query over the last week is not empty |
| AppAnalysis.AnalyzeHabitsWithLowMood | src/main/java/app/service/AnalysisService.java:84-93 | a text iff the limit-3 bad-mood query over the last week is not empty |
| AppAnalysis.MaxIndex | src/main/java/app/service/AnalysisService.java:100-101 | the first entry with the largest average |
| AppAnalysis.MinIndex | src/main/java/app/service/AnalysisService.java:115-116 | the first entry with the smallest average |
| AppAnalysis.AnalyzeHighestMoodDay | src/main/java/app/service/AnalysisService.java:95-108 | a text iff some weekday has an average in the last week |
| AppAnalysis.AnalyzeLowestMoodDay | src/main/java/app/service/AnalysisService.java:110-123 | a text iff some weekday has an average in the last week |
| AppAnalysis.GeneratePositiveImpactRecommendation | src/main/java/app/service/AnalysisService.java:125-135 | a text iff the limit-1 good-mood query over the last week is not empty |
| AppAnalysis.GenerateConsistencyRecommendation | src/main/java/app/service/AnalysisService.java:137-149 | a text iff a habit is picked and it was logged on one or two of the last seven days |
| AppAnalysis.Run | src/main/java/app/service/AnalysisService.java:20-29 | a pool entry's text, when there is one, is not empty |
| AppAnalysis.Shuffled | src/main/java/app/service/AnalysisService.java:39-40 | the shuffled copy holds each of the seven generators exactly once |
| AppAnalysis.Collected | src/main/java/app/service/AnalysisService.java:42-50 | at most one text per generator run, none of them empty |
| AppAnalysis.GetSevenRandomAnalyses | src/main/java/app/service/AnalysisService.java:37-52 | every generator is invoked once, in shuffled order; the non-empty texts are kept in that order; never more than seven, and no text twice |
| AppAnalysis.NoDataNoInsights | src/main/java/app/service/AnalysisService.java:46-49 | with no habit and empty queries the draw yields nothing |
| AppAnalysis.AllProduceAllKept | src/main/java/app/service/AnalysisService.java:46-49 | when every generator produces a text, all of them are kept |
| AppAnalysis.FullDataSevenInsights | src/main/java/app/service/AnalysisService.java:37-52 | with data for every generator, any shuffle yields all seven insights |
| AppAnalysis.CollectedSnoc | src/main/java/app/service/AnalysisService.java:44-48 | one more generator adds its text, when it has one, at the end |
| AppAnalysis.Author | src/main/java/app/service/AnalysisService.java:67-146 | reads off a text's first letters which generator's fixed opening it has |
| AppAnalysis.AuthorOfConsistency | src/main/java/app/service/AnalysisService.java:67 | the consistency text opens as only that generator's does |
| AppAnalysis.AuthorOfHighMood | src/main/java/app/service/AnalysisService.java:79 | the good-mood habits text opens as only that generator's does |
| AppAnalysis.AuthorOfLowMood | src/main/java/app/service/AnalysisService.java:90 | the bad-mood habits text opens as only that generator's does |
| AppAnalysis.AuthorOfHighestDay | src/main/java/app/service/AnalysisService.java:105 | the best-weekday text opens as only that generator's does |
| AppAnalysis.AuthorOfLowestDay | src/main/java/app/service/AnalysisService.java:120 | the worst-weekday text opens as only that generator's does |
| AppAnalysis.AuthorOfPositive | src/main/java/app/service/AnalysisService.java:132 | the positive-impact text opens as only that generator's does |
| AppAnalysis.AuthorOfRecommendation | src/main/java/app/service/AnalysisService.java:146 | the frequency advice opens as only that generator's does |
| AppAnalysis.AuthorOfRun | src/main/java/app/service/AnalysisService.java:20-29 | every text of a pool entry is recognised as that entry's |
| AppAnalysis.RunTextsApart | src/main/java/app/service/AnalysisService.java:20-29 | two different generators never produce the same text |
| AppAnalysis.CollectedOrigin | src/main/java/app/service/AnalysisService.java:42-50 | every kept text is the text of one of the generators run |
| AppAnalysis.NewGeneratorNewText | src/main/java/app/service/AnalysisService.java:42-50 | the text of a generator not run yet is not among the kept ones |
| AppAnalysis.CollectedDistinct | src/main/java/app/service/AnalysisService.java:32-50 | running each generator at most once keeps no text twice |
| AppAnalysis.DrawDistinct | src/main/java/app/service/AnalysisService.java:32-52 | the texts of a shuffled draw are pairwise different: the "7 unique" analyses |
| AppTrackerView.MoodIndexFrom | src/main/java/app/view/WeeklyTrackerView.java:472-477 | the first index from i on whose emoji equals the cell, or 0 |
| AppTrackerView.MoodValueFor | src/main/java/app/view/WeeklyTrackerView.java:470-477 | the cell's mood value is in 0..5; v > 0 means the cell is `MOOD_OPTIONS[v]`; 0 iff no emoji matches (a null or empty cell) |
| AppTrackerView.MoodValueOf | src/main/java/app/view/WeeklyTrackerView.java:471-477 | the loop over `MOOD_OPTIONS` with its `break` computes that value |
| AppTrackerView.MoodCell | src/main/java/app/view/WeeklyTrackerView.java:526-532 | the shown cell is empty iff there is no mood or its value is outside 1..5 |
| AppTrackerView.DisplayRoundTrip | src/main/java/app/view/WeeklyTrackerView.java:470-477 | a shown value in 1..5 reads back as itself; a missing or out-of-scale mood reads back as 0 |
| AppTrackerView.MoodOptionsDistinct | src/main/java/app/view/WeeklyTrackerView.java:54 | the six options are pairwise different |
| AppTrackerView.ColumnDate | src/main/java/app/view/WeeklyTrackerView.java:466-467 | column c shows `weekStart + (c - 2)`, inside the week iff c is in 2..8 |
| AppTrackerView.ColumnDateMatchesHeader | src/main/java/app/view/WeeklyTrackerView.java:277-279 | the edited column's date is the one its header and its cells show |
| AppTrackerView.DateColumn | src/main/java/app/view/WeeklyTrackerView.java:278 | the column of a date: it shows that date back, and lies in 2..8 iff the date is in the week |
| AppTrackerView.ColumnGuards | src/main/java/app/view/WeeklyTrackerView.java:288-290 | only the seven day columns are editable; a delete click is never on an editable cell, nor on the mood row |
| AppTrackerView.IsCellEditable | src/main/java/app/view/WeeklyTrackerView.java:288-290 | `isCellEditable` holds exactly for columns 2..8, in every row |
| AppTrackerView.DeleteFires | src/main/java/app/view/WeeklyTrackerView.java:448 | the mouse listener deletes only for column 9 on a habit row |
| AppTrackerView.EditFor | src/main/java/app/view/WeeklyTrackerView.java:465-484 | the last row sends the mood value for the column's date; a habit row sends that habit's id, the date and `TRUE.equals(cell)`; a Boolean in the mood row fails the String cast |
| AppTrackerView.ClearedCellSendsZero | src/main/java/app/view/WeeklyTrackerView.java:470-478 | clearing a mood cell sends `saveMood(0, date)`, and 0 is outside the accepted scale |
| AppTrackerView.PickedEmojiSendsValue | src/main/java/app/view/WeeklyTrackerView.java:470-478 | picking emoji v sends exactly v |
| AppTrackerView.HandleDataChange | src/main/java/app/view/WeeklyTrackerView.java:465-484 | a valid mood edit reaches `saveMood` and notifies, a check-box edit reaches `updateHabitStatus` only, anything else touches neither store |
| AppTrackerView.ClearMoodCell | src/main/java/app/view/WeeklyTrackerView.java:478 | clearing a mood cell leaves the stored mood and notifies nobody |
| LegacyAnalysisRepository.MoodDatesBetween | src/com/project/app/repository/AnalysisRepository.java:23 | exactly the days of the inclusive range that hold a mood row, each once, ascending |
| LegacyAnalysisRepository.LoggedDatesBetween | src/com/project/app/repository/AnalysisRepository.java:39 | the query as written: every day of the range with a log row for the habit, ascending, whatever its flag |
| LegacyAnalysisRepository.CompletedDatesBetween | src/com/project/app/repository/AnalysisRepository.java:39 | the corrected query: exactly the days of the range whose flag is true, ascending |
| LegacyAnalysisRepository.UncheckedDayCountsAsCompleted | src/com/project/app/repository/AnalysisRepository.java:39 | a day whose flag is false is returned as written but not by the corrected query |
| LegacyAnalysisRepository.CheckThenUncheckWitness | src/com/project/app/repository/AnalysisRepository.java:39 | checking and then unchecking day 0 of habit 1: the query as written returns [0], the corrected one [] |
| LegacyAnalysisRepository.CompletedAreLogged | src/com/project/app/repository/AnalysisRepository.java:39 | every completed day has a log row |
| LegacyAnalysisRepository.Placeholders | src/com/project/app/repository/AnalysisRepository.java:60-66 | length 2n−1 (0 for no dates), `?` at even and `,` at odd positions |
| LegacyAnalysisRepository.CountCharAppend | src/com/project/app/repository/AnalysisRepository.java:60-66 | character counts add up over concatenation |
| LegacyAnalysisRepository.PlaceholderCounts | src/com/project/app/repository/AnalysisRepository.java:60-66 | n `?`, n−1 `,`, and no comma at either end |
| LegacyAnalysisRepository.BuildPlaceholders | src/com/project/app/repository/AnalysisRepository.java:60-66 | the `StringBuilder` loop builds exactly that string |
| LegacyAnalysisRepository.BindDates | src/com/project/app/repository/AnalysisRepository.java:70-72 | parameters 1..n are bound, parameter i+1 to `dates[i]` |
| LegacyAnalysisRepository.SumValuesBounds | src/com/project/app/repository/AnalysisRepository.java:68 | on the 1..5 scale, n rows sum to between n and 5n |
| LegacyAnalysisRepository.AverageWithinScale | src/com/project/app/repository/AnalysisRepository.java:68-80 | with values on the 1..5 scale and a matching row, `AVG` lies in 1..5 |
| LegacyAnalysisRepository.AverageMood | src/com/project/app/repository/AnalysisRepository.java:68-80 | `AVG` read with `getDouble`: the SQL NULL of a query that matches no row reads as 0.0 |
| LegacyAnalysisRepository.AnalysisRepository.constructor | src/com/project/app/repository/AnalysisRepository.java:17-19 | reads the given mood and habit tables |
| LegacyAnalysisRepository.AnalysisRepository.GetDatesWithMoodEntries | src/com/project/app/repository/AnalysisRepository.java:21-35 | the distinct mood days of the range, ascending, cut at a driver failure |
| LegacyAnalysisRepository.AnalysisRepository.GetHabitCompletedDates | src/com/project/app/repository/AnalysisRepository.java:37-52 | the days of the range on which the habit is completed, ascending, cut at a driver failure |
| LegacyAnalysisRepository.AnalysisRepository.GetAverageMoodForDates | src/com/project/app/repository/AnalysisRepository.java:54-81 | no dates: 0.0 and no query; otherwise one `?` per date, parameter i+1 bound to `dates[i]`, and the average of the matching rows, or 0.0 on failure or no match |
| LegacyAnalysisService.NotDone | src/com/project/app/service/AnalysisService.java:34-36 | the mood days not among the completed days, and nothing else; ascending when the mood days are ascending, as the query's `ORDER BY date` returns them |
| LegacyAnalysisService.Entry | src/com/project/app/service/AnalysisService.java:38-54 | an entry carries the habit's name and the impact avgDone − avgNotDone (an empty side counting 0.0); it is present iff both sides hold days or the two averages differ |
| LegacyAnalysisService.EntryOfAverages | src/com/project/app/service/AnalysisService.java:48-54 | with the two averages the loop reads, the entry is the habit's name and their difference when both sides hold days or the difference is not 0.0, and nothing otherwise |
| LegacyAnalysisService.MeanOrZeroIsAverage | src/com/project/app/service/AnalysisService.java:38-46 | skipping the query for an empty list changes no value: the store answers 0.0 for it too |
| LegacyAnalysisService.HabitEntry | src/com/project/app/service/AnalysisService.java:31-54 | the entry of one habit with the days the repository reports as completed carries the habit's name |
| LegacyAnalysisService.LeftOutHabitHasNoImpact | src/com/project/app/service/AnalysisService.java:48-54 | a habit the analysis leaves out has the same average mood on its completed days as on the other mood days |
| LegacyAnalysisService.DroppedHabitWitness | src/com/project/app/service/AnalysisService.java:52 | a habit is dropped when one side is empty and the averages agree: completed on the only mood day, whose row has value 0 |
| LegacyAnalysisService.WrittenHabitEntry | src/com/project/app/repository/AnalysisRepository.java:39 | the entry of one habit if the service read the query as written |
| LegacyAnalysisService.SingleMoodDay | src/com/project/app/repository/AnalysisRepository.java:23-80 | one mood row of value 4 on day 0: it is the only mood day and its average is 4.0 |
| LegacyAnalysisService.UncheckedDayWrittenImpact | src/com/project/app/service/AnalysisService.java:31-54 | check then uncheck habit 1 on day 0 with mood 4 that day: the query as written reports impact +4.0 |
| LegacyAnalysisService.UncheckedDayCorrectedImpact | src/com/project/app/service/AnalysisService.java:31-54 | the same history with the corrected query: impact −4.0 |
| LegacyAnalysisService.Entries | src/com/project/app/service/AnalysisService.java:30-31 | one entry computation per habit, in habit-list order |
| LegacyAnalysisService.Impacts | src/com/project/app/service/AnalysisService.java:30-55 | the kept entries of a habit list: never more than there are habits |
| LegacyAnalysisService.PresentFollowsOrder | src/com/project/app/service/AnalysisService.java:52-54 | keeping the present entries keeps each once, in order, at strictly ascending positions, and keeps a position iff its entry is present |
| LegacyAnalysisService.AllPresent | src/com/project/app/service/AnalysisService.java:52-54 | when every entry is present all are kept |
| LegacyAnalysisService.ImpactsSnoc | src/com/project/app/service/AnalysisService.java:30-55 | one more habit adds its own entry, if any, at the end |
| LegacyAnalysisService.ImpactsPrefixStep | src/com/project/app/service/AnalysisService.java:30-55 | the first i + 1 habits add the entry of habit i, if any, to those of the first i |
| LegacyAnalysisService.ImpactsFollowHabits | src/com/project/app/service/AnalysisService.java:30-54 | at most one entry per habit, in habit-list order, each with that habit's name; a habit is included iff the entry computed for it is present |
| LegacyAnalysisService.HabitMoodImpacts | src/com/project/app/service/AnalysisService.java:21-57 | no mood days in the range gives no entries, whatever the habits; never more entries than habits |
| LegacyAnalysisService.EntryAlwaysPresent | src/com/project/app/service/AnalysisService.java:38-54 | on the 1..5 scale with at least one mood day, every habit passes the inclusion rule |
| LegacyAnalysisService.ImpactsKeepAll | src/com/project/app/service/AnalysisService.java:30-55 | so the loop keeps every habit |
| LegacyAnalysisService.AllHabitsIncluded | src/com/project/app/service/AnalysisService.java:21-57 | with a mood row in the range and values on the 1..5 scale, every habit gets an entry |
| LegacyAnalysisService.AnalysisService.constructor | src/com/project/app/service/AnalysisService.java:16-19 | a service whose two repositories read the same tables |
| LegacyAnalysisService.AnalysisService.AskedLists | src/com/project/app/service/AnalysisService.java:38-46 | the lists one pass asks averages for: each non-empty, and a list is among them iff it is not empty |
| LegacyAnalysisService.AnalysisService.AverageIfAny | src/com/project/app/service/AnalysisService.java:38-46 | the average of a list, asking the repository only when the list is not empty |
| LegacyAnalysisService.AnalysisService.ImpactOf | src/com/project/app/service/AnalysisService.java:31-54 | one pass of the loop: the repository is asked for the average of the completed days and then of the other mood days, each only when that list is not empty (the ghost `queried` trace); an empty side counts as 0.0; the result is the habit's entry |
| LegacyAnalysisService.AnalysisService.AddImpactOf | src/com/project/app/service/AnalysisService.java:31-54 | one iteration of the loop extends the entries of the first i habits to those of the first i + 1 |
| LegacyAnalysisService.AnalysisService.CollectImpacts | src/com/project/app/service/AnalysisService.java:30-55 | the loop produces the entries of the habits in list order |
| LegacyAnalysisService.AnalysisService.GetHabitMoodImpacts | src/com/project/app/service/AnalysisService.java:21-57 | the result is the specified list over the id-ordered habits and the range's mood days; empty without mood days; at most one entry per habit |

## Left out

- JDBC, connection setup and SQL execution: each repository holds its tables in memory; failures are the `fault` parameters. Transactions are not modelled: every statement auto-commits, so a failed INSERT after a successful DELETE leaves the date emptied (`MoodTable.UpsertResult`).
- Swing: rendering, editors, `invokeLater`, the confirmation dialog before a delete, the graphs of both dashboards, `Main`.
- The clock (`LocalDate.now()`) is the `today` parameter. The shuffle is the permutation `perm`. `getRandomHabit` is the two picked habits in `AppAnalysis.AnalysisData`.
- app.repository.AnalysisRepository is not part of this model: its query answers are the function fields of `AppAnalysis.AnalysisData`.
- Floating point: SQL `AVG` and the weekday averages are exact `real`s. The `%.2f` formatting of impacts (view code) is not modelled. A weekday map's iteration order is an input sequence, so ties go to the earlier entry as `max`/`min` decide.
- Insight texts are modelled with their fixed wording and `%d`/`%s` substitutions; `Locale` handling beyond the seven Indonesian day names is not modelled.
- Activity logs, caching and a notification from `updateHabitStatus`: the facade tests expect them, but the facades do not contain them.
- src/com/project/app/facade/MoodFacade.java: a one-line delegation per method, with no guard and no state of its own.
- `createMood`, `updateMood`, `deleteMood` and `getAllMood`, which the main-tree `MoodFacade` calls, are missing from its repository; `AppMoodRepository` gives them the legacy tree's semantics.
- `AppMoodFacade.MoodFacade.AddMood`: the date is a day number; the `String` date of `addMood(int, String)` and its parsing are not modelled.
- What the database does to a deleted habit's `habit_logs` rows is not modelled (the schema is not part of this model): the model's delete leaves them.
- The mood table is a sequence of rows, not a map keyed by date: `createMood` can put several rows on one date, which a date-keyed map cannot hold. One row per date is then a property (`MoodTable.OnePerDate`) that upserts keep and `createMood` breaks.
- `LegacyAnalysisService.AnalysisService.GetHabitMoodImpacts`: modelled with store calls that succeed; a failing query inside the loop is not modelled. The service's constructor takes the two repositories rather than creating them, so that both read the same tables.
- `LegacyAnalysisRepository.AnalysisRepository.GetHabitCompletedDates`: returns the corrected list (days whose flag is true), not the query as written; see Findings.
- `LegacyAnalysisService.AnalysisService.GetHabitMoodImpacts`, `LegacyAnalysisService.AnalysisService.CollectImpacts` and `LegacyAnalysisService.AnalysisService.ImpactOf` compute the analysis over the corrected completed days, so they do not show the sign flip of the query as written; `LegacyAnalysisService.WrittenHabitEntry` and `LegacyAnalysisService.UncheckedDayWrittenImpact` state what the source computes instead.
- `MoodTable.FirstOnDate` returns the first row of the date in table order, and `MoodTable.ByDateDesc` keeps table order among rows of one date. Without an `ORDER BY` on the lookup and a second sort key on the listing, the database leaves both unspecified once `createMood` has put two rows on one date; the model fixes one choice.
- `AppMoodFacade.MoodFacade.constructor`: only the constructor that takes a repository is modelled; the default one, which opens its own `MoodRepository`, is not.
- The ghost `writes` and `queried` traces are records for the proofs; the source keeps no such lists.

## Findings

| source | as written | input that shows it | evidently intended | confidence | as-written member | corrected member |
|---|---|---|---|---|---|---|
| src/com/project/app/repository/AnalysisRepository.java:39 | `SELECT date FROM habit_logs WHERE habit_id = ? AND date BETWEEN ? AND ?` returns every logged day, also the days whose `is_completed` is false | check habit 1 on day 0, then uncheck it: the flag upsert leaves the row `(1, 0, false)`, and the query returns day 0 as completed; with a mood of 4 on day 0 the habit's impact comes out +4.0 instead of −4.0 | only days with `is_completed = TRUE`, as `isHabitDone` reads them | high, not executed | LegacyAnalysisRepository.LoggedDatesBetween and LegacyAnalysisService.WrittenHabitEntry (with LegacyAnalysisRepository.CheckThenUncheckWitness, LegacyAnalysisRepository.UncheckedDayCountsAsCompleted and LegacyAnalysisService.UncheckedDayWrittenImpact) | LegacyAnalysisRepository.CompletedDatesBetween and LegacyAnalysisService.HabitEntry (with LegacyAnalysisService.UncheckedDayCorrectedImpact) |
