/** app.repository.MoodRepository over the `mood` table. The class shows `getMoodByDate` and a
    boolean `upsertMood`; `createMood`, `updateMood`, `deleteMood` and `getAllMood`, which the
    facade of the same tree calls but the class does not declare, follow the statements of
    com.project.app.repository.MoodRepository. */
module AppMoodRepository {
  import opened Common
  import opened MoodTable

  class MoodRepository {
    /** The rows of `mood` in id order. */
    var rows: seq<Mood>
    /** Current value of the id sequence of `mood`. */
    var nextId: int
    ghost var writes: seq<MoodWrite>

    ghost predicate Valid()
      reads this
    {
      WellFormed(rows, nextId)
    }

    constructor ()
      ensures Valid()
      ensures rows == [] && writes == []
    {
      rows, nextId := [], 1;
      writes := [];
    }

    /** `SELECT * FROM mood WHERE date = ?`, first row only; null when there is none or the query
        fails. */
    method GetMoodByDate(date: Date, fault: bool) returns (r: Option<Mood>)
      ensures r.Some? ==> r.value in rows && r.value.date == date
      ensures r.None? <==> fault || forall m :: m in rows ==> m.date != date
      ensures r == if fault then None else FirstOnDate(rows, date)
    {
      if fault {
        return None;
      }
      r := FirstOnDate(rows, date);
    }

    /** Delete the date's rows, then insert `(value, date)` if `value > 0`; true iff no statement
        threw. */
    method UpsertMood(value: int, date: Date, fault: UpsertFault) returns (ok: bool)
      requires Valid()
      modifies this
      ensures Valid()
      ensures ok == UpsertCompletes(value, fault)
      ensures writes == old(writes) + [Upsert(value, date)]
      ensures rows == UpsertResult(old(rows), old(nextId), value, date, fault)
      ensures nextId == if ok && value > 0 then old(nextId) + 1 else old(nextId)
    {
      writes := writes + [Upsert(value, date)];
      if fault == DeleteFails {
        return false;
      }
      OffDateKeepsWellFormed(rows, nextId, date);
      UpsertKeepsWellFormed(rows, nextId, value, date);
      var cleared := OffDate(rows, date);
      if value > 0 && fault == InsertFails {
        rows := cleared;
        return false;
      }
      rows := Upserted(rows, nextId, value, date);
      if value > 0 {
        nextId := nextId + 1;
      }
      return true;
    }

    /** `INSERT INTO mood (mood_value, date)`: no delete first, so the date may end up with
        several rows. */
    method CreateMood(mood: Mood, fault: bool)
      requires Valid()
      modifies this
      ensures Valid()
      ensures writes == old(writes) + [Insert(mood.value, mood.date)]
      ensures rows == if fault then old(rows) else Appended(old(rows), old(nextId), mood.value, mood.date)
      ensures nextId == if fault then old(nextId) else old(nextId) + 1
    {
      writes := writes + [Insert(mood.value, mood.date)];
      if !fault {
        AppendKeepsWellFormed(rows, nextId, mood.value, mood.date);
        rows := Appended(rows, nextId, mood.value, mood.date);
        nextId := nextId + 1;
      }
    }

    /** `SELECT * FROM mood ORDER BY date DESC`, copied row by row. */
    method GetAllMood(fault: Option<nat>) returns (list: seq<Mood>)
      ensures list == Cut(ByDateDesc(rows), fault)
      ensures DateDescending(list)
      ensures fault.None? ==> multiset(list) == multiset(rows)
    {
      var rs := ByDateDesc(rows);
      list := ReadRows(rs, fault);
      CutKeepsDescending(rs, fault);
    }

    /** `UPDATE mood SET mood_value = ? WHERE id = ?`. */
    method UpdateMood(id: int, value: int, fault: bool)
      requires Valid()
      modifies this
      ensures Valid()
      ensures writes == old(writes) + [SetValue(id, value)]
      ensures rows == if fault then old(rows) else Revalued(old(rows), id, value)
      ensures nextId == old(nextId)
    {
      writes := writes + [SetValue(id, value)];
      if !fault {
        RevaluedKeepsWellFormed(rows, nextId, id, value);
        rows := Revalued(rows, id, value);
      }
    }

    /** `DELETE FROM mood WHERE id = ?`. */
    method DeleteMood(id: int, fault: bool)
      requires Valid()
      modifies this
      ensures Valid()
      ensures writes == old(writes) + [Remove(id)]
      ensures rows == if fault then old(rows) else WithoutId(old(rows), id)
      ensures nextId == old(nextId)
    {
      writes := writes + [Remove(id)];
      if !fault {
        WithoutIdKeepsWellFormed(rows, nextId, id);
        rows := WithoutId(rows, id);
      }
    }
  }

  /** A successful upsert followed by the lookup reads back the value just written, or null for
      a value <= 0, and a lookup of any other date reads what it read before. */
  method UpsertReadsBack(repo: MoodRepository, value: int, date: Date, other: Date)
    returns (now: Option<Mood>, otherBefore: Option<Mood>, otherAfter: Option<Mood>)
    requires repo.Valid()
    requires other != date
    modifies repo
    ensures repo.Valid()
    ensures value > 0 ==> now.Some? && now.value.value == value && now.value.date == date
    ensures value <= 0 ==> now.None?
    ensures otherAfter == otherBefore
  {
    otherBefore := repo.GetMoodByDate(other, false);
    var ok := repo.UpsertMood(value, date, NoFault);
    now := repo.GetMoodByDate(date, false);
    UpsertSetsDate(old(repo.rows), old(repo.nextId), value, date);
    UpsertKeepsOtherDates(old(repo.rows), old(repo.nextId), value, date, other);
    otherAfter := repo.GetMoodByDate(other, false);
  }
}
