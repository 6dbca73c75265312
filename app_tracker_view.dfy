/** The value logic of app.view.WeeklyTrackerView: the emoji scale of the mood row, the mapping
    from table columns to the dates of the shown week, which cells may be edited, when a click
    deletes a habit, and what an edited cell sends to the facades. */
module AppTrackerView {
  import opened Common
  import opened MoodTable
  import AppHabitRepository
  import AppMoodFacade
  import AppHabitFacade

  /** `MOOD_OPTIONS`: index v shows mood value v; index 0 is the empty cell. The emoji are
      U+1F62D, U+1F61E, U+1F610, U+1F60A and U+1F604. */
  const MoodOptions: seq<string> := ["", "\U{1F62D}", "\U{1F61E}", "\U{1F610}", "\U{1F60A}", "\U{1F604}"]

  /** The first index in 1..5 at or after `i` whose emoji equals the cell, or 0. */
  function MoodIndexFrom(cell: Option<string>, i: nat): (v: int)
    requires 1 <= i <= |MoodOptions|
    ensures v == 0 || i <= v < |MoodOptions|
    ensures v > 0 ==> cell == Some(MoodOptions[v]) && forall j :: i <= j < v ==> cell != Some(MoodOptions[j])
    ensures v == 0 ==> forall j :: i <= j < |MoodOptions| ==> cell != Some(MoodOptions[j])
    decreases |MoodOptions| - i
  {
    if i == |MoodOptions| then 0
    else if cell == Some(MoodOptions[i]) then i
    else MoodIndexFrom(cell, i + 1)
  }

  /** The mood value an edited mood cell stands for (a null cell matches no emoji). */
  function MoodValueFor(cell: Option<string>): (v: int)
    ensures 0 <= v <= 5
    ensures v > 0 ==> cell == Some(MoodOptions[v])
    ensures v == 0 <==> forall j :: 1 <= j <= 5 ==> cell != Some(MoodOptions[j])
  {
    MoodIndexFrom(cell, 1)
  }

  /** The loop of `handleDataChange` over `MOOD_OPTIONS`, stopping at the first match. */
  method MoodValueOf(cell: Option<string>) returns (moodVal: int)
    ensures moodVal == MoodValueFor(cell)
    ensures 0 <= moodVal <= 5
    ensures moodVal > 0 ==> cell == Some(MoodOptions[moodVal])
    ensures moodVal == 0 ==> forall j :: 1 <= j < |MoodOptions| ==> cell != Some(MoodOptions[j])
  {
    moodVal := 0;
    var i := 1;
    while i < |MoodOptions|
      invariant 1 <= i <= |MoodOptions|
      invariant moodVal == 0
      invariant MoodIndexFrom(cell, 1) == MoodIndexFrom(cell, i)
    {
      if cell == Some(MoodOptions[i]) {
        moodVal := i;
        break;
      }
      i := i + 1;
    }
  }

  /** The mood row cell `loadData` shows for the stored mood of a day. */
  function MoodCell(m: Option<Mood>): (s: string)
    ensures s == "" <==> m.None? || !(1 <= m.value.value <= 5)
  {
    if m.Some? && 1 <= m.value.value <= 5 then MoodOptions[m.value.value] else ""
  }

  /** A shown cell reads back as the value stored, and a missing or out-of-scale mood as 0. */
  lemma DisplayRoundTrip(m: Option<Mood>)
    ensures MoodValueFor(Some(MoodCell(m))) == if m.Some? && 1 <= m.value.value <= 5 then m.value.value else 0
  {
  }

  /** Every value of the scale has its own emoji. */
  lemma MoodOptionsDistinct()
    ensures forall i, j :: 0 <= i < j < |MoodOptions| ==> MoodOptions[i] != MoodOptions[j]
  {
  }

  // ---------------------------------------------------------------------------
  // Columns: 0 "No", 1 "Activity", 2..8 the days of the week, 9 "Action".

  /** `weekStart.plusDays(col - 2)`. */
  function ColumnDate(weekStart: Date, col: int): (d: Date)
    ensures 2 <= col <= 8 <==> weekStart <= d <= weekStart + 6
  {
    weekStart + (col - 2)
  }

  /** The column showing a date of the week. */
  function DateColumn(weekStart: Date, d: Date): (col: int)
    ensures ColumnDate(weekStart, col) == d
    ensures weekStart <= d <= weekStart + 6 <==> 2 <= col <= 8
  {
    d - weekStart + 2
  }

  /** The edited column's date is the date whose header and cell `setupTable` and `loadData`
      put in that column, and the seven day columns show seven different dates. */
  lemma ColumnDateMatchesHeader(weekStart: Date, i: int)
    requires 0 <= i < 7
    ensures ColumnDate(weekStart, i + 2) == weekStart + i
    ensures DateColumn(weekStart, ColumnDate(weekStart, i + 2)) == i + 2
  {
  }

  /** `isCellEditable`: only the seven day columns, in every row. */
  predicate IsCellEditable(row: int, col: int) {
    2 <= col <= 8
  }

  /** The mouse listener deletes only for a click in the "Action" column on a habit row. */
  predicate DeleteFires(row: int, col: int, habitCount: int) {
    col == 9 && 0 <= row < habitCount
  }

  /** A cell is editable iff it shows a day of the week; the "Action" column is not editable,
      and the mood row (the row after the habits) never triggers a delete. */
  lemma ColumnGuards(weekStart: Date, row: int, col: int, habitCount: nat)
    ensures IsCellEditable(row, col) <==> weekStart <= ColumnDate(weekStart, col) <= weekStart + 6
    ensures DeleteFires(row, col, habitCount) ==> !IsCellEditable(row, col)
    ensures !DeleteFires(habitCount, col, habitCount)
  {
  }

  // ---------------------------------------------------------------------------
  // Edits.

  /** A table cell's value: a String, a Boolean or null. */
  datatype Cell = Text(s: string) | Checked(b: bool) | Null

  /** What `handleDataChange` sends for one edited cell. */
  datatype Edit =
    | SaveMoodEdit(value: int, date: Date)
    | StatusEdit(habitId: int, date: Date, isChecked: bool)
    | NoEdit
    /** `(String)` of a Boolean cell in the mood row throws ClassCastException. */
    | CastFails

  /** `handleDataChange(row, col)`: the last row is the mood row, the rows before it the habits. */
  function EditFor(weekStart: Date, row: nat, col: int, rowCount: int, habits: seq<Habit>, cell: Cell): (e: Edit)
    ensures e.SaveMoodEdit? ==> row == rowCount - 1 && 0 <= e.value <= 5 && e.date == ColumnDate(weekStart, col)
    ensures e.StatusEdit? ==> row != rowCount - 1 && row < |habits| && e.habitId == habits[row].id
                              && e.date == ColumnDate(weekStart, col) && (e.isChecked <==> cell == Checked(true))
    ensures e.NoEdit? <==> row != rowCount - 1 && row >= |habits|
  {
    var date := ColumnDate(weekStart, col);
    if row == rowCount - 1 then
      match cell
      case Text(s) => SaveMoodEdit(MoodValueFor(Some(s)), date)
      case Null => SaveMoodEdit(MoodValueFor(None), date)
      case Checked(_) => CastFails
    else if row < |habits| then
      StatusEdit(habits[row].id, date, cell == Checked(true))
    else NoEdit
  }

  /** Clearing a mood cell, to "" or to null, sends mood value 0 for the column's date. */
  lemma ClearedCellSendsZero(weekStart: Date, col: int, habits: seq<Habit>, cell: Cell)
    requires cell == Text("") || cell == Null
    ensures EditFor(weekStart, |habits|, col, |habits| + 1, habits, cell) == SaveMoodEdit(0, ColumnDate(weekStart, col))
    ensures !AppMoodFacade.IsMoodValue(0)
  {
  }

  /** Picking emoji v in a mood cell sends exactly v. */
  lemma PickedEmojiSendsValue(weekStart: Date, col: int, habits: seq<Habit>, v: int)
    requires 1 <= v <= 5
    ensures EditFor(weekStart, |habits|, col, |habits| + 1, habits, Text(MoodOptions[v]))
            == SaveMoodEdit(v, ColumnDate(weekStart, col))
  {
    assert MoodCell(Some(Mood(0, v, 0))) == MoodOptions[v];
    DisplayRoundTrip(Some(Mood(0, v, 0)));
  }

  /** What the listener makes of one edit: a mood goes to `saveMood`, a check mark to
      `updateHabitStatus`; anything else reaches neither facade. */
  method HandleDataChange(moodFacade: AppMoodFacade.MoodFacade, habitFacade: AppHabitFacade.HabitFacade,
                          weekStart: Date, row: nat, col: int, habits: seq<Habit>, cell: Cell,
                          moodFault: UpsertFault, habitFault: bool)
    returns (e: Edit)
    requires moodFacade.Valid() && habitFacade.Valid()
    modifies moodFacade, moodFacade.repo, habitFacade.repository
    ensures moodFacade.Valid() && habitFacade.Valid()
    ensures e == EditFor(weekStart, row, col, |habits| + 1, habits, cell)
    ensures e.SaveMoodEdit? && AppMoodFacade.IsMoodValue(e.value) ==>
              && moodFacade.repo.writes == old(moodFacade.repo.writes) + [Upsert(e.value, e.date)]
              && moodFacade.notified == old(moodFacade.notified) + moodFacade.observers
              && unchanged(habitFacade.repository)
    ensures e.StatusEdit? ==>
              && habitFacade.repository.writes
                 == old(habitFacade.repository.writes) + [AppHabitRepository.SetStatus(e.habitId, e.date, e.isChecked)]
              && unchanged(moodFacade.repo) && moodFacade.notified == old(moodFacade.notified)
    ensures !e.StatusEdit? && !(e.SaveMoodEdit? && AppMoodFacade.IsMoodValue(e.value)) ==>
              && unchanged(moodFacade.repo) && moodFacade.notified == old(moodFacade.notified)
              && unchanged(habitFacade.repository)
  {
    e := EditFor(weekStart, row, col, |habits| + 1, habits, cell);
    match e
    case SaveMoodEdit(value, date) =>
      moodFacade.SaveMood(value, date, moodFault);
    case StatusEdit(habitId, date, isChecked) =>
      habitFacade.UpdateHabitStatus(habitId, date, isChecked, habitFault);
    case NoEdit =>
    case CastFails =>
  }

  /** Clearing a mood cell reaches the mood facade as `saveMood(0, date)`, which its guard
      refuses: the stored mood of that date stays, and nobody is notified. */
  method ClearMoodCell(moodFacade: AppMoodFacade.MoodFacade, habitFacade: AppHabitFacade.HabitFacade,
                       weekStart: Date, col: int, habits: seq<Habit>, moodFault: UpsertFault)
    requires 2 <= col <= 8
    requires moodFacade.Valid() && habitFacade.Valid()
    modifies moodFacade, moodFacade.repo, habitFacade.repository
    ensures moodFacade.repo.rows == old(moodFacade.repo.rows)
    ensures moodFacade.notified == old(moodFacade.notified)
    ensures unchanged(habitFacade.repository)
  {
    ClearedCellSendsZero(weekStart, col, habits, Text(""));
    var e := HandleDataChange(moodFacade, habitFacade, weekStart, |habits|, col, habits, Text(""), moodFault, false);
  }
}
