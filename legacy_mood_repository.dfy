/** com.project.app.repository.MoodRepository over the `mood` table. Every mutator returns
    nothing and swallows any exception. */
module LegacyMoodRepository {
  import opened Common
  import opened MoodTable

  class MoodRepository {
    /** The rows of `mood` in id order. */
    var rows: seq<Mood>
    /** Current value of the id sequence of `mood`. */
    var nextId: int
    ghost var writes: seq<MoodWrite>

    ghost predicate Valid()
      reads this
    {
      WellFormed(rows, nextId)
    }

    constructor ()
      ensures Valid()
      ensures rows == [] && writes == []
    {
      rows, nextId := [], 1;
      writes := [];
    }

    /** `SELECT * FROM mood WHERE date = ?`, first row only; null when there is none or the query
        fails. */
    method GetMoodByDate(date: Date, fault: bool) returns (r: Option<Mood>)
      ensures r.Some? ==> r.value in rows && r.value.date == date
      ensures r.None? <==> fault || forall m :: m in rows ==> m.date != date
      ensures r == if fault then None else FirstOnDate(rows, date)
    {
      if fault {
        return None;
      }
      r := FirstOnDate(rows, date);
    }

    /** Delete the date's rows, then insert `(value, date)` if `value > 0`; an exception in
        either statement is swallowed. */
    method UpsertMood(value: int, date: Date, fault: UpsertFault)
      requires Valid()
      modifies this
      ensures Valid()
      ensures writes == old(writes) + [Upsert(value, date)]
      ensures rows == UpsertResult(old(rows), old(nextId), value, date, fault)
      ensures nextId == if UpsertCompletes(value, fault) && value > 0 then old(nextId) + 1 else old(nextId)
    {
      writes := writes + [Upsert(value, date)];
      if fault == DeleteFails {
        return;
      }
      OffDateKeepsWellFormed(rows, nextId, date);
      rows := OffDate(rows, date);
      if value > 0 && fault != InsertFails {
        rows := rows + [Mood(nextId, value, date)];
        nextId := nextId + 1;
      }
    }

    /** `INSERT INTO mood (mood_value, date)`: no delete first, so the date may end up with
        several rows. */
    method CreateMood(mood: Mood, fault: bool)
      requires Valid()
      modifies this
      ensures Valid()
      ensures writes == old(writes) + [Insert(mood.value, mood.date)]
      ensures rows == if fault then old(rows) else Appended(old(rows), old(nextId), mood.value, mood.date)
      ensures nextId == if fault then old(nextId) else old(nextId) + 1
    {
      writes := writes + [Insert(mood.value, mood.date)];
      if !fault {
        AppendKeepsWellFormed(rows, nextId, mood.value, mood.date);
        rows := Appended(rows, nextId, mood.value, mood.date);
        nextId := nextId + 1;
      }
    }

    /** `SELECT * FROM mood ORDER BY date DESC`, copied row by row; a failure at row k leaves the
        rows before it. */
    method GetAllMood(fault: Option<nat>) returns (list: seq<Mood>)
      ensures list == Cut(ByDateDesc(rows), fault)
      ensures DateDescending(list)
      ensures fault.None? ==> multiset(list) == multiset(rows)
    {
      var rs := ByDateDesc(rows);
      list := ReadRows(rs, fault);
      CutKeepsDescending(rs, fault);
    }

    /** `UPDATE mood SET mood_value = ? WHERE id = ?`. */
    method UpdateMood(id: int, value: int, fault: bool)
      requires Valid()
      modifies this
      ensures Valid()
      ensures writes == old(writes) + [SetValue(id, value)]
      ensures rows == if fault then old(rows) else Revalued(old(rows), id, value)
      ensures nextId == old(nextId)
    {
      writes := writes + [SetValue(id, value)];
      if !fault {
        RevaluedKeepsWellFormed(rows, nextId, id, value);
        rows := Revalued(rows, id, value);
      }
    }

    /** `DELETE FROM mood WHERE id = ?`. */
    method DeleteMood(id: int, fault: bool)
      requires Valid()
      modifies this
      ensures Valid()
      ensures writes == old(writes) + [Remove(id)]
      ensures rows == if fault then old(rows) else WithoutId(old(rows), id)
      ensures nextId == old(nextId)
    {
      writes := writes + [Remove(id)];
      if !fault {
        WithoutIdKeepsWellFormed(rows, nextId, id);
        rows := WithoutId(rows, id);
      }
    }
  }

  /** `createMood` on a date that already holds a row leaves two rows on it, which `upsertMood`
      never does: the table no longer has one row per date. */
  method CreateBreaksOnePerDate(repo: MoodRepository, m: Mood) returns (before: nat, after: nat)
    requires repo.Valid()
    requires OnDate(repo.rows, m.date) != []
    modifies repo
    ensures after == before + 1 && after >= 2
    ensures !OnePerDate(repo.rows)
  {
    before := |OnDate(repo.rows, m.date)|;
    CreateOnOccupiedDate(repo.rows, repo.nextId, m.value, m.date);
    repo.CreateMood(m, false);
    after := |OnDate(repo.rows, m.date)|;
  }
}
