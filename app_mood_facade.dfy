/** app.facade.MoodFacade: refuses mood values outside 1..5 without touching the store, and
    otherwise delegates and then tells every registered observer, whatever the store did. */
module AppMoodFacade {
  import opened Common
  import opened MoodTable
  import opened AppMoodRepository

  /** The values the emoji scale offers. */
  predicate IsMoodValue(value: int) {
    1 <= value <= 5
  }

  class MoodFacade {
    const repo: MoodRepository
    /** The registered observers, in registration order; duplicates allowed. */
    var observers: seq<Observer>
    /** Every `onDataChanged` delivery so far, in delivery order. */
    var notified: seq<Observer>

    ghost predicate Valid()
      reads this, repo
    {
      repo.Valid()
    }

    constructor (repo: MoodRepository)
      requires repo.Valid()
      ensures Valid()
      ensures this.repo == repo && observers == [] && notified == []
    {
      this.repo := repo;
      observers, notified := [], [];
    }

    method AddObserver(observer: Observer)
      modifies this
      ensures observers == old(observers) + [observer]
      ensures notified == old(notified)
    {
      observers := observers + [observer];
    }

    /** Calls every observer once, in registration order. */
    method NotifyObservers()
      modifies this
      ensures observers == old(observers)
      ensures notified == old(notified) + observers
    {
      var i := 0;
      while i < |observers|
        invariant 0 <= i <= |observers|
        invariant observers == old(observers)
        invariant notified == old(notified) + observers[..i]
      {
        notified := notified + [observers[i]];
        i := i + 1;
      }
    }

    /** Outside 1..5 (0 included) nothing happens; inside, one `upsertMood(value, date)`, then
        every observer is told even if the store reported failure. */
    method SaveMood(value: int, date: Date, fault: UpsertFault)
      requires Valid()
      modifies this, repo
      ensures Valid()
      ensures observers == old(observers)
      ensures !IsMoodValue(value) ==> unchanged(repo) && notified == old(notified)
      ensures IsMoodValue(value) ==>
                && repo.writes == old(repo.writes) + [Upsert(value, date)]
                && repo.rows == UpsertResult(old(repo.rows), old(repo.nextId), value, date, fault)
                && notified == old(notified) + observers
    {
      if value < 1 || value > 5 {
        return;
      }
      var ignored := repo.UpsertMood(value, date, fault);
      NotifyObservers();
    }

    /** The same guard, then one `createMood`, then every observer. */
    method AddMood(value: int, date: Date, fault: bool)
      requires Valid()
      modifies this, repo
      ensures Valid()
      ensures observers == old(observers)
      ensures !IsMoodValue(value) ==> unchanged(repo) && notified == old(notified)
      ensures IsMoodValue(value) ==>
                && repo.writes == old(repo.writes) + [Insert(value, date)]
                && repo.rows == (if fault then old(repo.rows) else Appended(old(repo.rows), old(repo.nextId), value, date))
                && notified == old(notified) + observers
    {
      if value < 1 || value > 5 {
        return;
      }
      repo.CreateMood(Mood(0, value, date), fault);
      NotifyObservers();
    }

    /** The same guard on the new value, then one `updateMood`, then every observer. */
    method UpdateMood(id: int, newValue: int, fault: bool)
      requires Valid()
      modifies this, repo
      ensures Valid()
      ensures observers == old(observers)
      ensures !IsMoodValue(newValue) ==> unchanged(repo) && notified == old(notified)
      ensures IsMoodValue(newValue) ==>
                && repo.writes == old(repo.writes) + [SetValue(id, newValue)]
                && repo.rows == (if fault then old(repo.rows) else Revalued(old(repo.rows), id, newValue))
                && notified == old(notified) + observers
    {
      if newValue < 1 || newValue > 5 {
        return;
      }
      repo.UpdateMood(id, newValue, fault);
      NotifyObservers();
    }

    /** No guard: always one `deleteMood`, always every observer. */
    method DeleteMood(id: int, fault: bool)
      requires Valid()
      modifies this, repo
      ensures Valid()
      ensures observers == old(observers)
      ensures repo.writes == old(repo.writes) + [Remove(id)]
      ensures repo.rows == if fault then old(repo.rows) else WithoutId(old(repo.rows), id)
      ensures notified == old(notified) + observers
    {
      repo.DeleteMood(id, fault);
      NotifyObservers();
    }

    method GetMood(date: Date, fault: bool) returns (r: Option<Mood>)
      ensures r.Some? ==> r.value in repo.rows && r.value.date == date
      ensures r == if fault then None else FirstOnDate(repo.rows, date)
    {
      r := repo.GetMoodByDate(date, fault);
    }

    method GetAllMood(fault: Option<nat>) returns (list: seq<Mood>)
      ensures list == Cut(ByDateDesc(repo.rows), fault)
      ensures DateDescending(list)
    {
      list := repo.GetAllMood(fault);
    }
  }
}
