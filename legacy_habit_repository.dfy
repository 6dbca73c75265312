/** com.project.app.repository.HabitRepository: the `habits` table and a `habit_logs` table
    holding one `is_completed` flag per (habit, date), written by an upsert. */
module LegacyHabitRepository {
  import opened Common
  import opened HabitTable

  /** A mutating call received by the store, in the order received. */
  datatype HabitWrite =
    | Create(name: string)
    | Rename(id: int, name: string)
    | Delete(id: int)
    | SetFlag(habitId: int, date: Date, status: bool)

  /** Whether a `SELECT is_completed ... WHERE habit_id = ? AND date = ?` reads true: a missing
      row reads as not done. */
  function Flag(logs: map<(int, Date), bool>, habitId: int, date: Date): (b: bool)
    ensures b ==> (habitId, date) in logs && logs[(habitId, date)]
    ensures (habitId, date) in logs ==> b == logs[(habitId, date)]
    ensures (habitId, date) !in logs ==> !b
  {
    (habitId, date) in logs && logs[(habitId, date)]
  }

  /** The upsert `ON CONFLICT (habit_id, date) DO UPDATE` overwrites the pair's flag whatever it
      was, and writing twice keeps only the second flag. */
  lemma UpsertFlagTwice(logs: map<(int, Date), bool>, habitId: int, date: Date, first: bool, second: bool)
    ensures logs[(habitId, date) := first][(habitId, date) := second] == logs[(habitId, date) := second]
    ensures Flag(logs[(habitId, date) := second], habitId, date) == second
    ensures forall h, d :: (h, d) != (habitId, date) ==> Flag(logs[(habitId, date) := second], h, d) == Flag(logs, h, d)
  {
  }

  class HabitRepository {
    var habits: map<int, string>
    /** Current value of the id sequence of `habits`. */
    var nextId: int
    /** The rows of `habit_logs`; being a map, it holds at most one row per (habit, date). */
    var logs: map<(int, Date), bool>
    ghost var writes: seq<HabitWrite>

    ghost predicate Valid()
      reads this
    {
      IdsBelow(habits, nextId)
    }

    constructor ()
      ensures Valid()
      ensures habits == map[] && logs == map[] && writes == []
    {
      habits, nextId, logs := map[], 1, map[];
      writes := [];
    }

    /** `INSERT INTO habits (name)`: the row gets the next id of the sequence. */
    method CreateHabit(habit: Habit, fault: bool) returns (ok: bool)
      requires Valid()
      modifies this
      ensures Valid()
      ensures ok == !fault
      ensures writes == old(writes) + [Create(habit.name)]
      ensures ok ==> old(nextId) !in old(habits) && habits == old(habits)[old(nextId) := habit.name]
                     && nextId == old(nextId) + 1
      ensures !ok ==> habits == old(habits) && nextId == old(nextId)
      ensures logs == old(logs)
    {
      writes := writes + [Create(habit.name)];
      if fault {
        return false;
      }
      habits := habits[nextId := habit.name];
      nextId := nextId + 1;
      return true;
    }

    /** `SELECT * FROM habits WHERE id = ?`; null when no row matches or the query fails. */
    method GetHabitById(id: int, fault: bool) returns (r: Option<Habit>)
      ensures r.Some? <==> !fault && id in habits
      ensures r.Some? ==> r.value == Habit(id, habits[id])
    {
      if !fault && id in habits {
        return Some(Habit(id, habits[id]));
      }
      return None;
    }

    /** `SELECT * FROM habits ORDER BY id ASC`, copied row by row; a driver failure at row k
        leaves the rows before it. */
    method GetAllHabits(fault: Option<nat>) returns (list: seq<Habit>)
      requires Valid()
      ensures list == Cut(Listing(habits, nextId), fault)
      ensures forall i, j :: 0 <= i < j < |list| ==> list[i].id < list[j].id
      ensures forall h :: h in list ==> h.id in habits && habits[h.id] == h.name
      ensures fault.None? ==> forall id :: id in habits ==> Habit(id, habits[id]) in list
    {
      ListingIsTableInIdOrder(habits, nextId);
      var rs := Listing(habits, nextId);
      list := ReadRows(rs, fault);
    }

    /** `UPDATE habits SET name = ? WHERE id = ?`; true even when no row matches. */
    method UpdateHabit(habit: Habit, fault: bool) returns (ok: bool)
      requires Valid()
      modifies this
      ensures Valid()
      ensures ok == !fault
      ensures writes == old(writes) + [Rename(habit.id, habit.name)]
      ensures habits == if ok && habit.id in old(habits) then old(habits)[habit.id := habit.name] else old(habits)
      ensures nextId == old(nextId) && logs == old(logs)
    {
      writes := writes + [Rename(habit.id, habit.name)];
      if fault {
        return false;
      }
      if habit.id in habits {
        habits := habits[habit.id := habit.name];
      }
      return true;
    }

    /** `DELETE FROM habits WHERE id = ?`; true even when no row matches. */
    method DeleteHabit(id: int, fault: bool) returns (ok: bool)
      requires Valid()
      modifies this
      ensures Valid()
      ensures ok == !fault
      ensures writes == old(writes) + [Delete(id)]
      ensures habits == if ok then old(habits) - {id} else old(habits)
      ensures nextId == old(nextId) && logs == old(logs)
    {
      writes := writes + [Delete(id)];
      if fault {
        return false;
      }
      habits := habits - {id};
      return true;
    }

    /** The pair's `is_completed` flag; false for a missing row and on failure. */
    method IsHabitDone(habitId: int, date: Date, fault: bool) returns (b: bool)
      ensures b ==> !fault && (habitId, date) in logs && logs[(habitId, date)]
      ensures !fault && (habitId, date) in logs && logs[(habitId, date)] ==> b
    {
      b := !fault && Flag(logs, habitId, date);
    }

    /** `INSERT ... ON CONFLICT (habit_id, date) DO UPDATE SET is_completed = ?`: returns
        nothing; a failure leaves the table as it was. */
    method SetHabitStatus(habitId: int, date: Date, status: bool, fault: bool)
      requires Valid()
      modifies this
      ensures Valid()
      ensures writes == old(writes) + [SetFlag(habitId, date, status)]
      ensures logs == if fault then old(logs) else old(logs)[(habitId, date) := status]
      ensures habits == old(habits) && nextId == old(nextId)
    {
      writes := writes + [SetFlag(habitId, date, status)];
      if !fault {
        logs := logs[(habitId, date) := status];
      }
    }
  }

  /** After `setHabitStatus(h, d, s)` has gone through, `isHabitDone(h, d)` answers s, and every
      other pair answers as before. */
  method StatusReadsBack(repo: HabitRepository, habitId: int, date: Date, status: bool, other: (int, Date))
    returns (now: bool, otherBefore: bool, otherAfter: bool)
    requires repo.Valid()
    requires other != (habitId, date)
    modifies repo
    ensures repo.Valid()
    ensures now == status && otherAfter == otherBefore
  {
    otherBefore := repo.IsHabitDone(other.0, other.1, false);
    repo.SetHabitStatus(habitId, date, status, false);
    now := repo.IsHabitDone(habitId, date, false);
    otherAfter := repo.IsHabitDone(other.0, other.1, false);
  }
}
