/** The `mood` table as the SQL statements of both MoodRepository classes change and query it.
    Rows are kept in insertion order, which is ascending id order (ids come from a SERIAL
    sequence); a date may hold several rows, since `createMood` inserts without deleting. */
module MoodTable {
  import opened Common

  ghost predicate WellFormed(rows: seq<Mood>, nextId: int) {
    && nextId >= 1
    && (forall i :: 0 <= i < |rows| ==> 1 <= rows[i].id < nextId)
    && (forall i, j :: 0 <= i < j < |rows| ==> rows[i].id < rows[j].id)
  }

  function OnPred(date: Date): Mood -> bool {
    (m: Mood) => m.date == date
  }

  function OffPred(date: Date): Mood -> bool {
    (m: Mood) => m.date != date
  }

  function OtherIdPred(id: int): Mood -> bool {
    (m: Mood) => m.id != id
  }

  /** `SELECT * FROM mood WHERE date = ?`, in table order. */
  function OnDate(rows: seq<Mood>, date: Date): (r: seq<Mood>)
    ensures |r| <= |rows|
    ensures forall m :: m in r <==> m in rows && m.date == date
  {
    Filter(rows, OnPred(date))
  }

  /** `DELETE FROM mood WHERE date = ?`. */
  function OffDate(rows: seq<Mood>, date: Date): (r: seq<Mood>)
    ensures |r| <= |rows|
    ensures forall m :: m in r <==> m in rows && m.date != date
  {
    Filter(rows, OffPred(date))
  }

  /** `upsertMood(value, date)` when both statements succeed: delete the date's rows, then insert
      a row only for a positive value. */
  function Upserted(rows: seq<Mood>, nextId: int, value: int, date: Date): (r: seq<Mood>)
    ensures forall m :: m in r && m.date != date <==> m in rows && m.date != date
    ensures forall m :: m in r && m.date == date <==> value > 0 && m == Mood(nextId, value, date)
  {
    OffDate(rows, date) + (if value > 0 then [Mood(nextId, value, date)] else [])
  }

  /** `createMood`: a plain `INSERT INTO mood (mood_value, date)`. */
  function Appended(rows: seq<Mood>, nextId: int, value: int, date: Date): (r: seq<Mood>)
    ensures |r| == |rows| + 1
    ensures forall m :: m in r <==> m in rows || m == Mood(nextId, value, date)
  {
    rows + [Mood(nextId, value, date)]
  }

  /** `DELETE FROM mood WHERE id = ?`. */
  function WithoutId(rows: seq<Mood>, id: int): (r: seq<Mood>)
    ensures |r| <= |rows|
    ensures forall m :: m in r <==> m in rows && m.id != id
  {
    Filter(rows, OtherIdPred(id))
  }

  /** `UPDATE mood SET mood_value = ? WHERE id = ?`. */
  function Revalued(rows: seq<Mood>, id: int, value: int): (r: seq<Mood>)
    ensures |r| == |rows|
    ensures forall i :: 0 <= i < |rows| ==>
              r[i].id == rows[i].id && r[i].date == rows[i].date
              && r[i].value == (if rows[i].id == id then value else rows[i].value)
  {
    if rows == [] then []
    else [if rows[0].id == id then rows[0].(value := value) else rows[0]] + Revalued(rows[1..], id, value)
  }

  /** The first row of the date in table order: what `if (rs.next())` reads of the
      `SELECT * FROM mood WHERE date = ?` result. */
  function FirstOnDate(rows: seq<Mood>, date: Date): (r: Option<Mood>)
    ensures r == if OnDate(rows, date) == [] then None else Some(OnDate(rows, date)[0])
  {
    if rows == [] then None
    else if rows[0].date == date then Some(rows[0])
    else FirstOnDate(rows[1..], date)
  }

  /** At most one row per date: what the delete-then-insert upsert is meant to keep. */
  ghost predicate OnePerDate(rows: seq<Mood>) {
    forall date :: |OnDate(rows, date)| <= 1
  }

  // ---------------------------------------------------------------------------
  // Upsert.

  lemma OnDateOfNewRow(m: Mood, date: Date)
    ensures OnDate([m], date) == if m.date == date then [m] else []
  {
    assert [m][1..] == [];
  }

  /** After an upsert the date holds exactly the new row, or nothing for a value <= 0. */
  lemma UpsertSetsDate(rows: seq<Mood>, nextId: int, value: int, date: Date)
    ensures OnDate(Upserted(rows, nextId, value, date), date)
            == if value > 0 then [Mood(nextId, value, date)] else []
  {
    var added := if value > 0 then [Mood(nextId, value, date)] else [];
    FilterAppend(OffDate(rows, date), added, OnPred(date));
    FilterDropsAll(OffDate(rows, date), OnPred(date));
    if value > 0 {
      OnDateOfNewRow(Mood(nextId, value, date), date);
    }
  }

  /** The delete is scoped to the date: every other date keeps exactly its rows. */
  lemma UpsertKeepsOtherDates(rows: seq<Mood>, nextId: int, value: int, date: Date, other: Date)
    requires other != date
    ensures OnDate(Upserted(rows, nextId, value, date), other) == OnDate(rows, other)
  {
    var added := if value > 0 then [Mood(nextId, value, date)] else [];
    FilterAppend(OffDate(rows, date), added, OnPred(other));
    FilterOfFilter(rows, OffPred(date), OnPred(other));
    if value > 0 {
      OnDateOfNewRow(Mood(nextId, value, date), other);
    }
  }

  /** Upserting the same value twice leaves the table of a single upsert whose row has the
      later id: the upsert is idempotent up to the id the sequence hands out. */
  lemma UpsertTwice(rows: seq<Mood>, firstId: int, secondId: int, value: int, date: Date)
    ensures Upserted(Upserted(rows, firstId, value, date), secondId, value, date)
            == Upserted(rows, secondId, value, date)
  {
    var added := if value > 0 then [Mood(firstId, value, date)] else [];
    var once := Upserted(rows, firstId, value, date);
    assert once == OffDate(rows, date) + added;
    FilterAppend(OffDate(rows, date), added, OffPred(date));
    FilterOfFilter(rows, OffPred(date), OffPred(date));
    FilterDropsAll(added, OffPred(date));
    assert OffDate(once, date) == OffDate(rows, date) + [];
  }

  /** Upserts keep the table at one row per date. */
  lemma UpsertKeepsOnePerDate(rows: seq<Mood>, nextId: int, value: int, date: Date)
    requires OnePerDate(rows)
    ensures OnePerDate(Upserted(rows, nextId, value, date))
  {
    forall other ensures |OnDate(Upserted(rows, nextId, value, date), other)| <= 1 {
      if other == date {
        UpsertSetsDate(rows, nextId, value, date);
      } else {
        UpsertKeepsOtherDates(rows, nextId, value, date, other);
      }
    }
  }

  /** `createMood` on a date that already has a row leaves that date with two or more rows. */
  lemma CreateOnOccupiedDate(rows: seq<Mood>, nextId: int, value: int, date: Date)
    requires OnDate(rows, date) != []
    ensures |OnDate(Appended(rows, nextId, value, date), date)| == |OnDate(rows, date)| + 1
    ensures !OnePerDate(Appended(rows, nextId, value, date))
  {
    FilterAppend(rows, [Mood(nextId, value, date)], OnPred(date));
    OnDateOfNewRow(Mood(nextId, value, date), date);
  }

  /** On a table with one row per date, the lookup by date finds the one row of that date. */
  lemma FirstOnDateIsTheEntry(rows: seq<Mood>, m: Mood)
    requires OnePerDate(rows)
    requires m in rows
    ensures FirstOnDate(rows, m.date) == Some(m)
  {
    var on := OnDate(rows, m.date);
    assert m in on;
    assert |on| <= 1;
    assert on == [m];
  }

  // ---------------------------------------------------------------------------
  // Failures of the two-statement upsert, and the calls a store receives.

  /** Where the two statements of the upsert may throw: the DELETE, or the INSERT after it. */
  datatype UpsertFault = NoFault | DeleteFails | InsertFails

  /** A mutating call received by the store, in the order received. */
  datatype MoodWrite =
    | Upsert(value: int, date: Date)
    | Insert(value: int, date: Date)
    | SetValue(id: int, value: int)
    | Remove(id: int)

  /** Whether both statements of `upsertMood(value, ...)` complete: the INSERT runs only for a
      positive value, so its failure matters only then. */
  predicate UpsertCompletes(value: int, fault: UpsertFault) {
    fault == NoFault || (fault == InsertFails && value <= 0)
  }

  /** The table after `upsertMood`: untouched when the DELETE throws, the date emptied when the
      INSERT throws after it (auto-commit keeps the DELETE), the full upsert otherwise. */
  function UpsertResult(rows: seq<Mood>, nextId: int, value: int, date: Date, fault: UpsertFault): (r: seq<Mood>)
    ensures fault == DeleteFails ==> r == rows
    ensures UpsertCompletes(value, fault) ==> r == Upserted(rows, nextId, value, date)
    ensures fault != DeleteFails && !UpsertCompletes(value, fault) ==> OnDate(r, date) == []
    ensures forall other :: other != date ==> OnDate(r, other) == OnDate(rows, other)
  {
    forall other | other != date
      ensures OnDate(OffDate(rows, date), other) == OnDate(rows, other)
      ensures OnDate(Upserted(rows, nextId, value, date), other) == OnDate(rows, other)
    {
      FilterOfFilter(rows, OffPred(date), OnPred(other));
      UpsertKeepsOtherDates(rows, nextId, value, date, other);
    }
    if fault == DeleteFails then rows
    else if UpsertCompletes(value, fault) then Upserted(rows, nextId, value, date)
    else
      FilterDropsAll(OffDate(rows, date), OnPred(date));
      OffDate(rows, date)
  }

  // ---------------------------------------------------------------------------
  // Ids stay ascending and below the sequence.

  /** A row below the sequence with an id below all of a well-formed table's ids can lead it. */
  lemma WellFormedCons(x: Mood, t: seq<Mood>, nextId: int)
    requires WellFormed(t, nextId)
    requires 1 <= x.id < nextId
    requires forall y :: y in t ==> x.id < y.id
    ensures WellFormed([x] + t, nextId)
  {
    var r := [x] + t;
    forall i, j | 0 <= i < j < |r| ensures r[i].id < r[j].id {
      assert r[j] == t[j - 1];
      if i > 0 { assert r[i] == t[i - 1]; }
    }
  }

  lemma {:induction false} FilterKeepsWellFormed(rows: seq<Mood>, nextId: int, p: Mood -> bool)
    requires WellFormed(rows, nextId)
    ensures WellFormed(Filter(rows, p), nextId)
  {
    if rows != [] {
      var tail := rows[1..];
      assert WellFormed(tail, nextId);
      FilterKeepsWellFormed(tail, nextId, p);
      var rest := Filter(tail, p);
      assert forall y :: y in rest ==> y in tail;
      assert forall y :: y in tail ==> rows[0].id < y.id;
      if p(rows[0]) {
        WellFormedCons(rows[0], rest, nextId);
        assert Filter(rows, p) == [rows[0]] + rest;
      } else {
        assert Filter(rows, p) == rest;
      }
    }
  }

  lemma UpsertKeepsWellFormed(rows: seq<Mood>, nextId: int, value: int, date: Date)
    requires WellFormed(rows, nextId)
    ensures WellFormed(Upserted(rows, nextId, value, date), if value > 0 then nextId + 1 else nextId)
  {
    FilterKeepsWellFormed(rows, nextId, OffPred(date));
  }

  lemma OffDateKeepsWellFormed(rows: seq<Mood>, nextId: int, date: Date)
    requires WellFormed(rows, nextId)
    ensures WellFormed(OffDate(rows, date), nextId)
  {
    FilterKeepsWellFormed(rows, nextId, OffPred(date));
  }

  lemma AppendKeepsWellFormed(rows: seq<Mood>, nextId: int, value: int, date: Date)
    requires WellFormed(rows, nextId)
    ensures WellFormed(Appended(rows, nextId, value, date), nextId + 1)
  {
  }

  lemma WithoutIdKeepsWellFormed(rows: seq<Mood>, nextId: int, id: int)
    requires WellFormed(rows, nextId)
    ensures WellFormed(WithoutId(rows, id), nextId)
  {
    FilterKeepsWellFormed(rows, nextId, OtherIdPred(id));
  }

  /** Deleting by id removes exactly the row with that id (ids are unique) and keeps the rest. */
  lemma WithoutIdRemovesOnlyThatRow(rows: seq<Mood>, nextId: int, id: int)
    requires WellFormed(rows, nextId)
    ensures forall m :: m in WithoutId(rows, id) <==> m in rows && m.id != id
    ensures |WithoutId(rows, id)| == |rows| - (if exists i :: 0 <= i < |rows| && rows[i].id == id then 1 else 0)
  {
    WithoutIdCount(rows, nextId, id);
  }

  lemma {:induction false} WithoutIdCount(rows: seq<Mood>, nextId: int, id: int)
    requires WellFormed(rows, nextId)
    ensures |WithoutId(rows, id)| == |rows| - (if exists i :: 0 <= i < |rows| && rows[i].id == id then 1 else 0)
  {
    if rows != [] {
      var tail := rows[1..];
      assert WellFormed(tail, nextId);
      WithoutIdCount(tail, nextId, id);
      if rows[0].id == id {
        forall i | 0 <= i < |tail| ensures tail[i].id != id {
          assert rows[i + 1] == tail[i];
        }
      } else {
        assert (exists i :: 0 <= i < |rows| && rows[i].id == id)
           <==> (exists i :: 0 <= i < |tail| && tail[i].id == id) by {
          if exists i :: 0 <= i < |rows| && rows[i].id == id {
            var i :| 0 <= i < |rows| && rows[i].id == id;
            assert i > 0 && tail[i - 1].id == id;
          }
          if exists i :: 0 <= i < |tail| && tail[i].id == id {
            var i :| 0 <= i < |tail| && tail[i].id == id;
            assert rows[i + 1].id == id;
          }
        }
      }
    }
  }

  lemma RevaluedKeepsWellFormed(rows: seq<Mood>, nextId: int, id: int, value: int)
    requires WellFormed(rows, nextId)
    ensures WellFormed(Revalued(rows, id, value), nextId)
  {
  }

  // ---------------------------------------------------------------------------
  // `SELECT * FROM mood ORDER BY date DESC`.

  predicate DateDescending(s: seq<Mood>) {
    forall i, j :: 0 <= i < j < |s| ==> s[i].date >= s[j].date
  }

  /** Insert `m` after every row whose date is not earlier than its own. */
  function InsertByDate(m: Mood, s: seq<Mood>): (r: seq<Mood>)
    ensures multiset(r) == multiset(s) + multiset{m}
  {
    if s == [] || m.date > s[0].date then
      [m] + s
    else
      assert s == [s[0]] + s[1..];
      [s[0]] + InsertByDate(m, s[1..])
  }

  lemma DescendingCons(x: Mood, t: seq<Mood>)
    requires DateDescending(t)
    requires forall y :: y in t ==> y.date <= x.date
    ensures DateDescending([x] + t)
  {
    var r := [x] + t;
    forall i, j | 0 <= i < j < |r| ensures r[i].date >= r[j].date {
      assert r[j] == t[j - 1];
      if i > 0 { assert r[i] == t[i - 1]; }
    }
  }

  /** Inserting into a date-descending list keeps it date-descending. */
  lemma {:induction false} InsertKeepsDescending(m: Mood, s: seq<Mood>)
    requires DateDescending(s)
    ensures DateDescending(InsertByDate(m, s))
  {
    if s == [] || m.date > s[0].date {
      DescendingCons(m, s);
    } else {
      var tail := s[1..];
      assert DateDescending(tail);
      InsertKeepsDescending(m, tail);
      var rest := InsertByDate(m, tail);
      forall x | x in rest ensures x.date <= s[0].date {
        assert x in multiset(rest);
        if x != m {
          assert x in multiset(tail);
          var k :| 0 <= k < |tail| && tail[k] == x;
          assert s[k + 1] == x;
        }
      }
      DescendingCons(s[0], rest);
    }
  }

  /** The rows ordered by date, latest first, as an insertion sort over table order. */
  function ByDateDesc(rows: seq<Mood>): (r: seq<Mood>)
    ensures DateDescending(r)
    ensures multiset(r) == multiset(rows)
  {
    if rows == [] then []
    else
      assert rows == rows[..|rows| - 1] + [rows[|rows| - 1]];
      var sortedInit := ByDateDesc(rows[..|rows| - 1]);
      InsertKeepsDescending(rows[|rows| - 1], sortedInit);
      InsertByDate(rows[|rows| - 1], sortedInit)
  }

  /** A prefix of a date-descending listing is date-descending. */
  lemma CutKeepsDescending(rows: seq<Mood>, stop: Option<nat>)
    requires DateDescending(rows)
    ensures DateDescending(Cut(rows, stop))
  {
    var r := Cut(rows, stop);
    forall i, j | 0 <= i < j < |r| ensures r[i].date >= r[j].date {
      assert r[i] == rows[i] && r[j] == rows[j];
    }
  }
}
