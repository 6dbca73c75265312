/** app.repository.HabitRepository: the `habits` table and the presence-only `habit_logs` table.
    A `fault` argument stands in for the SQLException the JDBC driver may throw. */
module AppHabitRepository {
  import opened Common
  import opened HabitTable

  /** A mutating call received by the store, in the order received. */
  datatype HabitWrite =
    | Create(name: string)
    | Rename(id: int, name: string)
    | Delete(id: int)
    | SetStatus(habitId: int, date: Date, status: bool)

  /** `habit_logs` after `setHabitStatus(habitId, date, status)` has succeeded: an insert that
      ignores a conflicting row, or a delete. */
  function Marked(done: set<(int, Date)>, habitId: int, date: Date, status: bool): (r: set<(int, Date)>)
    ensures (habitId, date) in r <==> status
    ensures forall p :: p != (habitId, date) ==> (p in r <==> p in done)
  {
    if status then done + {(habitId, date)} else done - {(habitId, date)}
  }

  /** Marking is idempotent, and marking a pair twice keeps only the second flag. */
  lemma MarkedTwice(done: set<(int, Date)>, habitId: int, date: Date, first: bool, second: bool)
    ensures Marked(Marked(done, habitId, date, first), habitId, date, second) == Marked(done, habitId, date, second)
  {
  }

  class HabitRepository {
    var habits: map<int, string>
    /** Current value of the id sequence of `habits`. */
    var nextId: int
    /** The rows of `habit_logs`: a pair is present iff the habit is done on that date. */
    var done: set<(int, Date)>
    ghost var writes: seq<HabitWrite>

    ghost predicate Valid()
      reads this
    {
      IdsBelow(habits, nextId)
    }

    constructor ()
      ensures Valid()
      ensures habits == map[] && done == {} && writes == []
    {
      habits, nextId, done := map[], 1, {};
      writes := [];
    }

    /** `INSERT INTO habits (name)`: the row gets the next id of the sequence. */
    method CreateHabit(habit: Habit, fault: bool) returns (ok: bool)
      requires Valid()
      modifies this
      ensures Valid()
      ensures ok == !fault
      ensures writes == old(writes) + [Create(habit.name)]
      ensures ok ==> old(nextId) !in old(habits) && habits == old(habits)[old(nextId) := habit.name]
                     && nextId == old(nextId) + 1
      ensures !ok ==> habits == old(habits) && nextId == old(nextId)
      ensures done == old(done)
    {
      writes := writes + [Create(habit.name)];
      if fault {
        return false;
      }
      habits := habits[nextId := habit.name];
      nextId := nextId + 1;
      return true;
    }

    /** `SELECT * FROM habits WHERE id = ?`; null when no row matches or the query fails. */
    method GetHabitById(id: int, fault: bool) returns (r: Option<Habit>)
      ensures r.Some? <==> !fault && id in habits
      ensures r.Some? ==> r.value == Habit(id, habits[id])
    {
      if !fault && id in habits {
        return Some(Habit(id, habits[id]));
      }
      return None;
    }

    /** `SELECT * FROM habits ORDER BY id ASC`, copied row by row; a driver failure at row k
        leaves the rows before it. */
    method GetAllHabits(fault: Option<nat>) returns (list: seq<Habit>)
      requires Valid()
      ensures list == Cut(Listing(habits, nextId), fault)
      ensures forall i, j :: 0 <= i < j < |list| ==> list[i].id < list[j].id
      ensures forall h :: h in list ==> h.id in habits && habits[h.id] == h.name
      ensures fault.None? ==> forall id :: id in habits ==> Habit(id, habits[id]) in list
    {
      ListingIsTableInIdOrder(habits, nextId);
      var rs := Listing(habits, nextId);
      list := ReadRows(rs, fault);
    }

    /** `UPDATE habits SET name = ? WHERE id = ?`; the update count is ignored, so a missing id
        still reports success. */
    method UpdateHabit(habit: Habit, fault: bool) returns (ok: bool)
      requires Valid()
      modifies this
      ensures Valid()
      ensures ok == !fault
      ensures writes == old(writes) + [Rename(habit.id, habit.name)]
      ensures habits == if ok && habit.id in old(habits) then old(habits)[habit.id := habit.name] else old(habits)
      ensures nextId == old(nextId) && done == old(done)
    {
      writes := writes + [Rename(habit.id, habit.name)];
      if fault {
        return false;
      }
      if habit.id in habits {
        habits := habits[habit.id := habit.name];
      }
      return true;
    }

    /** `DELETE FROM habits WHERE id = ?`; success whether or not a row matched. */
    method DeleteHabit(id: int, fault: bool) returns (ok: bool)
      requires Valid()
      modifies this
      ensures Valid()
      ensures ok == !fault
      ensures writes == old(writes) + [Delete(id)]
      ensures habits == if ok then old(habits) - {id} else old(habits)
      ensures nextId == old(nextId) && done == old(done)
    {
      writes := writes + [Delete(id)];
      if fault {
        return false;
      }
      habits := habits - {id};
      return true;
    }

    /** `SELECT 1 FROM habit_logs WHERE habit_id = ? AND date = ?`; false on failure. */
    method IsHabitDone(habitId: int, date: Date, fault: bool) returns (b: bool)
      ensures b <==> !fault && (habitId, date) in done
    {
      b := !fault && (habitId, date) in done;
    }

    /** Checking inserts the pair (`ON CONFLICT DO NOTHING`), unchecking deletes it; both report
        success even when nothing changed. */
    method SetHabitStatus(habitId: int, date: Date, status: bool, fault: bool) returns (ok: bool)
      requires Valid()
      modifies this
      ensures Valid()
      ensures ok == !fault
      ensures writes == old(writes) + [SetStatus(habitId, date, status)]
      ensures done == if ok then Marked(old(done), habitId, date, status) else old(done)
      ensures habits == old(habits) && nextId == old(nextId)
    {
      writes := writes + [SetStatus(habitId, date, status)];
      if fault {
        return false;
      }
      if status {
        done := done + {(habitId, date)};
      } else {
        done := done - {(habitId, date)};
      }
      return true;
    }
  }

  /** After a successful `setHabitStatus(h, d, b)`, `isHabitDone(h, d)` answers b, and every
      other pair answers as before. */
  method StatusReadsBack(repo: HabitRepository, habitId: int, date: Date, status: bool, other: (int, Date))
    returns (now: bool, otherBefore: bool, otherAfter: bool)
    requires repo.Valid()
    requires other != (habitId, date)
    modifies repo
    ensures repo.Valid()
    ensures now == status && otherAfter == otherBefore
  {
    otherBefore := repo.IsHabitDone(other.0, other.1, false);
    var ok := repo.SetHabitStatus(habitId, date, status, false);
    now := repo.IsHabitDone(habitId, date, false);
    otherAfter := repo.IsHabitDone(other.0, other.1, false);
  }
}
