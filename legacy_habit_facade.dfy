/** com.project.app.facade.HabitFacade: the older facade, which delegates to the repository
    without validating names and tells every registered observer about a successful change. */
module LegacyHabitFacade {
  import opened Common
  import opened HabitTable
  import opened LegacyHabitRepository

  class HabitFacade {
    const repository: HabitRepository
    /** The registered observers, in registration order; duplicates allowed. */
    var observers: seq<Observer>
    /** Every `onDataChanged` delivery so far, in delivery order. */
    var notified: seq<Observer>

    ghost predicate Valid()
      reads this, repository
    {
      repository.Valid()
    }

    /** The only constructor builds its own repository. */
    constructor ()
      ensures Valid()
      ensures fresh(repository) && repository.habits == map[] && repository.logs == map[]
      ensures observers == [] && notified == []
    {
      repository := new HabitRepository();
      observers, notified := [], [];
    }

    method AddObserver(observer: Observer)
      modifies this
      ensures observers == old(observers) + [observer]
      ensures notified == old(notified)
    {
      observers := observers + [observer];
    }

    /** Calls every observer once, in registration order. */
    method NotifyObservers()
      modifies this
      ensures observers == old(observers)
      ensures notified == old(notified) + observers
    {
      var i := 0;
      while i < |observers|
        invariant 0 <= i <= |observers|
        invariant observers == old(observers)
        invariant notified == old(notified) + observers[..i]
      {
        notified := notified + [observers[i]];
        i := i + 1;
      }
    }

    /** Any name, the empty one included, goes to `createHabit`; observers hear of it only if
        the store succeeded. */
    method AddHabit(name: string, fault: bool) returns (ok: bool)
      requires Valid()
      modifies this, repository
      ensures Valid()
      ensures observers == old(observers)
      ensures ok == !fault
      ensures repository.writes == old(repository.writes) + [Create(name)]
      ensures notified == old(notified) + (if ok then observers else [])
      ensures ok ==> repository.habits == old(repository.habits)[old(repository.nextId) := name]
      ensures !ok ==> repository.habits == old(repository.habits)
      ensures repository.logs == old(repository.logs)
    {
      ok := repository.CreateHabit(Habit(0, name), fault);
      if ok {
        NotifyObservers();
      }
    }

    /** No validation of the name; observers hear of it iff the store reports success. */
    method UpdateHabit(id: int, name: string, fault: bool) returns (ok: bool)
      requires Valid()
      modifies this, repository
      ensures Valid()
      ensures observers == old(observers)
      ensures ok == !fault
      ensures repository.writes == old(repository.writes) + [Rename(id, name)]
      ensures repository.habits == if ok && id in old(repository.habits) then old(repository.habits)[id := name] else old(repository.habits)
      ensures repository.logs == old(repository.logs)
      ensures notified == old(notified) + (if ok then observers else [])
    {
      ok := repository.UpdateHabit(Habit(id, name), fault);
      if ok {
        NotifyObservers();
      }
    }

    method DeleteHabit(id: int, fault: bool) returns (ok: bool)
      requires Valid()
      modifies this, repository
      ensures Valid()
      ensures observers == old(observers)
      ensures ok == !fault
      ensures repository.writes == old(repository.writes) + [Delete(id)]
      ensures repository.habits == if ok then old(repository.habits) - {id} else old(repository.habits)
      ensures repository.logs == old(repository.logs)
      ensures notified == old(notified) + (if ok then observers else [])
    {
      ok := repository.DeleteHabit(id, fault);
      if ok {
        NotifyObservers();
      }
    }

    method GetHabits(fault: Option<nat>) returns (list: seq<Habit>)
      requires Valid()
      ensures list == Cut(Listing(repository.habits, repository.nextId), fault)
      ensures forall i, j :: 0 <= i < j < |list| ==> list[i].id < list[j].id
    {
      list := repository.GetAllHabits(fault);
    }

    method GetHabit(id: int, fault: bool) returns (r: Option<Habit>)
      ensures r.Some? <==> !fault && id in repository.habits
      ensures r.Some? ==> r.value == Habit(id, repository.habits[id])
    {
      r := repository.GetHabitById(id, fault);
    }

    method GetHabitStatus(habitId: int, date: Date, fault: bool) returns (b: bool)
      ensures b <==> !fault && Flag(repository.logs, habitId, date)
    {
      b := repository.IsHabitDone(habitId, date, fault);
    }

    /** Forwards the arguments unchanged and notifies nobody. */
    method UpdateHabitStatus(habitId: int, date: Date, isCompleted: bool, fault: bool)
      requires Valid()
      modifies repository
      ensures Valid()
      ensures repository.writes == old(repository.writes) + [SetFlag(habitId, date, isCompleted)]
      ensures repository.logs == if fault then old(repository.logs) else old(repository.logs)[(habitId, date) := isCompleted]
      ensures repository.habits == old(repository.habits)
      ensures notified == old(notified)
    {
      repository.SetHabitStatus(habitId, date, isCompleted, fault);
    }
  }
}
