/** com.project.app.service.AnalysisService: for every habit, the average mood on the days it
    was completed minus the average mood on the other mood days of the range. */
module LegacyAnalysisService {
  import opened Common
  import opened HabitTable
  import opened MoodTable
  import opened LegacyAnalysisRepository
  import LegacyHabitRepository
  import LegacyMoodRepository

  /** An AnalysisHabitMood record. */
  datatype HabitMoodImpact = HabitMoodImpact(habitName: string, moodImpact: real)

  function NotInPred(done: seq<Date>): Date -> bool {
    d => d !in done
  }

  /** The mood days on which the habit was not completed: a stream filter, so in mood-day order. */
  function NotDone(moodDates: seq<Date>, done: seq<Date>): (r: seq<Date>)
    ensures forall d :: d in r <==> d in moodDates && d !in done
    ensures |r| <= |moodDates|
    ensures StrictlyAscending(moodDates) ==> StrictlyAscending(r)
  {
    if StrictlyAscending(moodDates) then
      FilterKeepsAscending(moodDates, NotInPred(done));
      Filter(moodDates, NotInPred(done))
    else Filter(moodDates, NotInPred(done))
  }

  /** The average of a date list that is asked for only when the list is not empty. */
  function MeanOrZero(rows: seq<Mood>, dates: seq<Date>): (avg: real)
  {
    if dates == [] then 0.0 else AverageMood(rows, dates)
  }

  /** The body of the loop for one habit with completed days `done`. */
  function Entry(habit: Habit, moodDates: seq<Date>, done: seq<Date>, rows: seq<Mood>): (r: Option<HabitMoodImpact>)
    ensures r.Some? ==> r.value.habitName == habit.name
    ensures r.Some? ==> r.value.moodImpact == MeanOrZero(rows, done) - MeanOrZero(rows, NotDone(moodDates, done))
    ensures r.Some? <==> (done != [] && NotDone(moodDates, done) != [])
                         || MeanOrZero(rows, done) != MeanOrZero(rows, NotDone(moodDates, done))
  {
    var notDone := NotDone(moodDates, done);
    var moodImpact := MeanOrZero(rows, done) - MeanOrZero(rows, notDone);
    if (done != [] && notDone != []) || moodImpact != 0.0 then Some(HabitMoodImpact(habit.name, moodImpact))
    else None
  }

  /** The entry of one habit of the listing, with the days the repository reports as completed. */
  function HabitEntry(habit: Habit, moodDates: seq<Date>, logs: map<(int, Date), bool>, rows: seq<Mood>,
                      startDate: Date, endDate: Date): (r: Option<HabitMoodImpact>)
    ensures r.Some? ==> r.value.habitName == habit.name
  {
    Entry(habit, moodDates, CompletedDatesBetween(logs, habit.id, startDate, endDate), rows)
  }

  /** Skipping the query for an empty list changes no value: the store answers 0.0 for it too. */
  lemma MeanOrZeroIsAverage(rows: seq<Mood>, dates: seq<Date>)
    ensures MeanOrZero(rows, dates) == AverageMood(rows, dates)
  {
    if dates == [] {
      assert forall m :: m in rows ==> m.date !in dates;
    }
  }

  /** A habit the analysis leaves out has the same average mood on its completed days as on the
      other mood days of the range. */
  lemma LeftOutHabitHasNoImpact(habit: Habit, moodDates: seq<Date>, logs: map<(int, Date), bool>, rows: seq<Mood>,
                                startDate: Date, endDate: Date)
    ensures var done := CompletedDatesBetween(logs, habit.id, startDate, endDate);
            HabitEntry(habit, moodDates, logs, rows, startDate, endDate).None? ==>
              AverageMood(rows, done) == AverageMood(rows, NotDone(moodDates, done))
  {
    var done := CompletedDatesBetween(logs, habit.id, startDate, endDate);
    MeanOrZeroIsAverage(rows, done);
    MeanOrZeroIsAverage(rows, NotDone(moodDates, done));
  }

  /** The entry, given the two averages the loop reads from the repository. */
  lemma EntryOfAverages(habit: Habit, moodDates: seq<Date>, done: seq<Date>, rows: seq<Mood>,
                        avgDone: real, avgNotDone: real)
    requires avgDone == MeanOrZero(rows, done) && avgNotDone == MeanOrZero(rows, NotDone(moodDates, done))
    ensures Entry(habit, moodDates, done, rows)
            == if (done != [] && NotDone(moodDates, done) != []) || avgDone - avgNotDone != 0.0
               then Some(HabitMoodImpact(habit.name, avgDone - avgNotDone)) else None
  {
  }

  /** A habit is left out when one side is empty and the two averages agree: a value-0 row,
      which `createMood` accepts, makes the completed side average 0.0, as the empty side does. */
  lemma DroppedHabitWitness()
    ensures Entry(Habit(1, "h"), [0], [0], [Mood(1, 0, 0)]) == None
  {
    var rows := [Mood(1, 0, 0)];
    assert NotDone([0], [0]) == [];
    assert Filter(rows, InDatesPred([0])) == rows;
    assert SumValues(rows) == 0;
  }

  /** The entry as the service computes it over the completed-days query as written, which
      returns every logged day (see `LoggedDatesBetween`). */
  function WrittenHabitEntry(habit: Habit, moodDates: seq<Date>, logs: map<(int, Date), bool>, rows: seq<Mood>,
                             startDate: Date, endDate: Date): Option<HabitMoodImpact>
  {
    Entry(habit, moodDates, LoggedDatesBetween(logs, habit.id, startDate, endDate), rows)
  }

  /** One mood row of value 4 on day 0: day 0 is the only mood day, and its average is 4.0. */
  lemma SingleMoodDay()
    ensures MoodDatesBetween([Mood(1, 4, 0)], 0, 0) == [0]
    ensures MeanOrZero([Mood(1, 4, 0)], [0]) == 4.0
  {
    var rows := [Mood(1, 4, 0)];
    assert 0 in MoodDatesBetween(rows, 0, 0);
    assert Filter(rows, InDatesPred([0])) == rows;
    assert SumValues(rows) == 4;
  }

  /** The query as written flips the sign of the impact: habit 1 checked and then unchecked on
      day 0, the only mood day, with mood 4, comes out as +4.0 ... */
  lemma UncheckedDayWrittenImpact()
    ensures WrittenHabitEntry(Habit(1, "h"), [0], map[(1, 0) := false], [Mood(1, 4, 0)], 0, 0)
            == Some(HabitMoodImpact("h", 4.0))
  {
    CheckThenUncheckWitness();
    SingleMoodDay();
    assert NotDone([0], [0]) == [];
  }

  /** ... where the days on which the habit is completed give -4.0. */
  lemma UncheckedDayCorrectedImpact()
    ensures HabitEntry(Habit(1, "h"), [0], map[(1, 0) := false], [Mood(1, 4, 0)], 0, 0)
            == Some(HabitMoodImpact("h", -4.0))
  {
    CheckThenUncheckWitness();
    SingleMoodDay();
    assert NotDone([0], []) == [0];
  }

  /** The entry computed for each habit of `hs`, position by position. */
  function Entries(hs: seq<Habit>, moodDates: seq<Date>, logs: map<(int, Date), bool>, rows: seq<Mood>,
                   startDate: Date, endDate: Date): (es: seq<Option<HabitMoodImpact>>)
    ensures |es| == |hs|
    ensures forall i :: 0 <= i < |hs| ==> es[i] == HabitEntry(hs[i], moodDates, logs, rows, startDate, endDate)
  {
    if hs == [] then []
    else Entries(hs[..|hs| - 1], moodDates, logs, rows, startDate, endDate)
         + [HabitEntry(hs[|hs| - 1], moodDates, logs, rows, startDate, endDate)]
  }

  /** The present values of `es`, in order. */
  function Present<T>(es: seq<Option<T>>): (r: seq<T>)
    ensures |r| <= |es|
  {
    if es == [] then []
    else Present(es[..|es| - 1]) + (if es[|es| - 1].Some? then [es[|es| - 1].value] else [])
  }

  /** The positions of the present values of `es`. */
  function PresentAt<T>(es: seq<Option<T>>): seq<nat> {
    if es == [] then []
    else PresentAt(es[..|es| - 1]) + (if es[|es| - 1].Some? then [|es| - 1] else [])
  }

  /** `Present` keeps exactly the present values, in their order, at the positions `PresentAt` lists. */
  lemma {:induction false} PresentFollowsOrder<T>(es: seq<Option<T>>)
    ensures var r := Present(es);
            var ix := PresentAt(es);
            && |ix| == |r|
            && (forall k :: 0 <= k < |ix| ==> ix[k] < |es| && es[ix[k]] == Some(r[k]))
            && (forall k, l :: 0 <= k < l < |ix| ==> ix[k] < ix[l])
            && (forall i :: 0 <= i < |es| ==> (i in ix <==> es[i].Some?))
  {
    if es != [] {
      var n := |es| - 1;
      var init := es[..n];
      PresentFollowsOrder(init);
      var r0, ix0 := Present(init), PresentAt(init);
      var r, ix := Present(es), PresentAt(es);
      assert n !in ix0;
      forall k | 0 <= k < |ix| ensures ix[k] < |es| && es[ix[k]] == Some(r[k]) {
        if k < |ix0| {
          assert ix[k] == ix0[k] && r[k] == r0[k] && es[ix0[k]] == init[ix0[k]];
        }
      }
      forall k, l | 0 <= k < l < |ix| ensures ix[k] < ix[l] {
        assert ix[k] == ix0[k];
        if l < |ix0| {
          assert ix[l] == ix0[l];
        }
      }
      forall i | 0 <= i < |es| ensures i in ix <==> es[i].Some? {
        if i < n {
          assert es[i] == init[i];
          assert i in ix <==> i in ix0;
        }
      }
    }
  }

  /** When every value is present, all of them are kept. */
  lemma {:induction false} AllPresent<T>(es: seq<Option<T>>)
    requires forall i :: 0 <= i < |es| ==> es[i].Some?
    ensures |Present(es)| == |es|
  {
    if es != [] {
      var init := es[..|es| - 1];
      assert forall i :: 0 <= i < |init| ==> init[i] == es[i];
      AllPresent(init);
    }
  }

  /** The entries of the habits `hs`, in their order. */
  function Impacts(hs: seq<Habit>, moodDates: seq<Date>, logs: map<(int, Date), bool>, rows: seq<Mood>,
                   startDate: Date, endDate: Date): (r: seq<HabitMoodImpact>)
    ensures |r| <= |hs|
  {
    Present(Entries(hs, moodDates, logs, rows, startDate, endDate))
  }

  /** One more habit adds its own entry, if any, at the end. */
  lemma ImpactsSnoc(hs: seq<Habit>, h: Habit, moodDates: seq<Date>, logs: map<(int, Date), bool>, rows: seq<Mood>,
                    startDate: Date, endDate: Date)
    ensures var e := HabitEntry(h, moodDates, logs, rows, startDate, endDate);
            Impacts(hs + [h], moodDates, logs, rows, startDate, endDate)
            == Impacts(hs, moodDates, logs, rows, startDate, endDate) + (if e.Some? then [e.value] else [])
  {
    assert (hs + [h])[..|hs|] == hs;
  }

  /** The same step on a prefix of the habit list: the first i + 1 habits add the entry of habit i. */
  lemma ImpactsPrefixStep(hs: seq<Habit>, i: int, moodDates: seq<Date>, logs: map<(int, Date), bool>,
                          rows: seq<Mood>, startDate: Date, endDate: Date)
    requires 0 <= i < |hs|
    ensures var e := HabitEntry(hs[i], moodDates, logs, rows, startDate, endDate);
            Impacts(hs[..i + 1], moodDates, logs, rows, startDate, endDate)
            == Impacts(hs[..i], moodDates, logs, rows, startDate, endDate) + (if e.Some? then [e.value] else [])
  {
    assert hs[..i + 1] == hs[..i] + [hs[i]];
    ImpactsSnoc(hs[..i], hs[i], moodDates, logs, rows, startDate, endDate);
  }

  /** At most one entry per habit, in habit-list order, each carrying its habit's name; a habit
      gets an entry iff the entry computed for it is present. */
  lemma ImpactsFollowHabits(hs: seq<Habit>, moodDates: seq<Date>, logs: map<(int, Date), bool>,
                            rows: seq<Mood>, startDate: Date, endDate: Date)
    ensures var r := Impacts(hs, moodDates, logs, rows, startDate, endDate);
            var ix := PresentAt(Entries(hs, moodDates, logs, rows, startDate, endDate));
            && |ix| == |r|
            && (forall k :: 0 <= k < |ix| ==> ix[k] < |hs| && r[k].habitName == hs[ix[k]].name)
            && (forall k, l :: 0 <= k < l < |ix| ==> ix[k] < ix[l])
            && (forall i :: 0 <= i < |hs| ==> (i in ix <==> HabitEntry(hs[i], moodDates, logs, rows, startDate, endDate).Some?))
  {
    PresentFollowsOrder(Entries(hs, moodDates, logs, rows, startDate, endDate));
  }

  /** The whole answer: nothing without mood days, the habits' entries otherwise. */
  function HabitMoodImpacts(hs: seq<Habit>, moodDates: seq<Date>, logs: map<(int, Date), bool>, rows: seq<Mood>,
                            startDate: Date, endDate: Date): (r: seq<HabitMoodImpact>)
    ensures moodDates == [] ==> r == []
    ensures |r| <= |hs|
  {
    if moodDates == [] then [] else Impacts(hs, moodDates, logs, rows, startDate, endDate)
  }

  // ---------------------------------------------------------------------------
  // The inclusion rule in practice.

  /** On a 1..5 mood table with at least one mood day, the rule keeps every habit: a habit that
      splits the mood days is kept, and one that does not has a non-zero average on one side
      against 0.0 on the other. */
  lemma EntryAlwaysPresent(habit: Habit, moodDates: seq<Date>, done: seq<Date>, rows: seq<Mood>)
    requires forall m :: m in rows ==> 1 <= m.value <= 5
    requires moodDates != []
    requires forall d :: d in moodDates ==> exists m :: m in rows && m.date == d
    ensures Entry(habit, moodDates, done, rows).Some?
  {
    var notDone := NotDone(moodDates, done);
    var d0 := moodDates[0];
    assert d0 in moodDates;
    var m0 :| m0 in rows && m0.date == d0;
    if done == [] {
      FilterKeepsAll(moodDates, NotInPred(done));
      AverageWithinScale(rows, notDone, m0);
    } else if notDone == [] {
      assert d0 in done;
      AverageWithinScale(rows, done, m0);
    }
  }

  lemma ImpactsKeepAll(hs: seq<Habit>, moodDates: seq<Date>, logs: map<(int, Date), bool>,
                        rows: seq<Mood>, startDate: Date, endDate: Date)
    requires forall m :: m in rows ==> 1 <= m.value <= 5
    requires moodDates != []
    requires forall d :: d in moodDates ==> exists m :: m in rows && m.date == d
    ensures |Impacts(hs, moodDates, logs, rows, startDate, endDate)| == |hs|
  {
    var es := Entries(hs, moodDates, logs, rows, startDate, endDate);
    forall i | 0 <= i < |es| ensures es[i].Some? {
      EntryAlwaysPresent(hs[i], moodDates, CompletedDatesBetween(logs, hs[i].id, startDate, endDate), rows);
    }
    AllPresent(es);
  }

  /** Hence, with mood values on the 1..5 scale and a mood row in the range, every habit of the
      listing gets an entry. */
  lemma AllHabitsIncluded(hs: seq<Habit>, logs: map<(int, Date), bool>, rows: seq<Mood>,
                          startDate: Date, endDate: Date, sample: Mood)
    requires forall m :: m in rows ==> 1 <= m.value <= 5
    requires sample in rows && startDate <= sample.date <= endDate
    ensures |HabitMoodImpacts(hs, MoodDatesBetween(rows, startDate, endDate), logs, rows, startDate, endDate)| == |hs|
  {
    var moodDates := MoodDatesBetween(rows, startDate, endDate);
    assert sample.date in moodDates;
    ImpactsKeepAll(hs, moodDates, logs, rows, startDate, endDate);
  }

  // ---------------------------------------------------------------------------
  // The service.

  class AnalysisService {
    const habitRepository: LegacyHabitRepository.HabitRepository
    const analysisRepository: AnalysisRepository

    /** Both repositories read the same database. */
    ghost predicate Valid()
      reads this, habitRepository
    {
      && analysisRepository.habits == habitRepository
      && habitRepository.Valid()
    }

    constructor (habitRepository: LegacyHabitRepository.HabitRepository, moods: LegacyMoodRepository.MoodRepository)
      requires habitRepository.Valid()
      ensures Valid()
      ensures this.habitRepository == habitRepository && analysisRepository.moods == moods
    {
      this.habitRepository := habitRepository;
      analysisRepository := new AnalysisRepository(moods, habitRepository);
    }

    /** The date lists whose average one pass asks the repository for: the completed days, then
        the other mood days, each only when it is not empty. */
    ghost function AskedLists(done: seq<Date>, notDone: seq<Date>): (qs: seq<seq<Date>>)
      ensures forall q :: q in qs ==> q != []
      ensures done in qs <==> done != []
      ensures notDone in qs <==> notDone != []
    {
      (if done != [] then [done] else []) + (if notDone != [] then [notDone] else [])
    }

    /** The average mood of `dates`, asked of the repository only when the list is not empty. */
    method AverageIfAny(dates: seq<Date>) returns (avg: real, ghost asked: seq<seq<Date>>)
      ensures avg == MeanOrZero(analysisRepository.moods.rows, dates)
      ensures asked == if dates != [] then [dates] else []
    {
      avg, asked := 0.0, [];
      if dates != [] {
        var call;
        avg, call := analysisRepository.GetAverageMoodForDates(dates, false);
        asked := [dates];
      }
    }

    /** One pass of the loop: the habit's completed days, the mood days without it, the two
        averages (each asked for only when its list is not empty), and the inclusion rule. */
    method ImpactOf(habit: Habit, datesWithMoodEntries: seq<Date>, startDate: Date, endDate: Date)
      returns (entry: Option<HabitMoodImpact>, ghost queried: seq<seq<Date>>)
      requires Valid()
      ensures entry == HabitEntry(habit, datesWithMoodEntries, habitRepository.logs, analysisRepository.moods.rows,
                                  startDate, endDate)
      ensures entry.Some? ==> entry.value.habitName == habit.name
      ensures var done := CompletedDatesBetween(habitRepository.logs, habit.id, startDate, endDate);
              queried == AskedLists(done, NotDone(datesWithMoodEntries, done))
    {
      var habitCompletedDates := analysisRepository.GetHabitCompletedDates(habit.id, startDate, endDate, None);
      var habitNotCompletedDates := NotDone(datesWithMoodEntries, habitCompletedDates);
      var avgMoodWhenDone, askedDone := AverageIfAny(habitCompletedDates);
      var avgMoodWhenNotDone, askedNotDone := AverageIfAny(habitNotCompletedDates);
      queried := askedDone + askedNotDone;
      EntryOfAverages(habit, datesWithMoodEntries, habitCompletedDates, analysisRepository.moods.rows,
                      avgMoodWhenDone, avgMoodWhenNotDone);
      var moodImpact := avgMoodWhenDone - avgMoodWhenNotDone;
      if (habitCompletedDates != [] && habitNotCompletedDates != []) || moodImpact != 0.0 {
        entry := Some(HabitMoodImpact(habit.name, moodImpact));
      } else {
        entry := None;
      }
    }

    /** `getHabitMoodImpacts(startDate, endDate)` over store calls that succeed. */
    method GetHabitMoodImpacts(startDate: Date, endDate: Date) returns (impacts: seq<HabitMoodImpact>)
      requires Valid()
      ensures impacts == HabitMoodImpacts(Listing(habitRepository.habits, habitRepository.nextId),
                                          MoodDatesBetween(analysisRepository.moods.rows, startDate, endDate),
                                          habitRepository.logs, analysisRepository.moods.rows, startDate, endDate)
      ensures MoodDatesBetween(analysisRepository.moods.rows, startDate, endDate) == [] ==> impacts == []
      ensures |impacts| <= |habitRepository.habits|
    {
      ListingIsTableInIdOrder(habitRepository.habits, habitRepository.nextId);
      var habits := habitRepository.GetAllHabits(None);
      var datesWithMoodEntries := analysisRepository.GetDatesWithMoodEntries(startDate, endDate, None);
      impacts := [];
      if datesWithMoodEntries == [] {
        return;
      }
      impacts := CollectImpacts(habits, datesWithMoodEntries, startDate, endDate);
    }

    /** One iteration of the loop: habit i's entry, when there is one, joins the list. */
    method AddImpactOf(impacts: seq<HabitMoodImpact>, habits: seq<Habit>, i: int, datesWithMoodEntries: seq<Date>,
                       startDate: Date, endDate: Date) returns (extended: seq<HabitMoodImpact>)
      requires Valid() && 0 <= i < |habits|
      requires impacts == Impacts(habits[..i], datesWithMoodEntries, habitRepository.logs,
                                  analysisRepository.moods.rows, startDate, endDate)
      ensures extended == Impacts(habits[..i + 1], datesWithMoodEntries, habitRepository.logs,
                                  analysisRepository.moods.rows, startDate, endDate)
    {
      var entry, queried := ImpactOf(habits[i], datesWithMoodEntries, startDate, endDate);
      ImpactsPrefixStep(habits, i, datesWithMoodEntries, habitRepository.logs, analysisRepository.moods.rows,
                        startDate, endDate);
      extended := impacts;
      if entry.Some? {
        extended := extended + [entry.value];
      }
    }

    /** The loop over the habits once the mood days are known. */
    method CollectImpacts(habits: seq<Habit>, datesWithMoodEntries: seq<Date>, startDate: Date, endDate: Date)
      returns (impacts: seq<HabitMoodImpact>)
      requires Valid()
      ensures impacts == Impacts(habits, datesWithMoodEntries, habitRepository.logs, analysisRepository.moods.rows,
                                 startDate, endDate)
    {
      ghost var rows := analysisRepository.moods.rows;
      ghost var logs := habitRepository.logs;
      impacts := [];
      var i := 0;
      while i < |habits|
        invariant 0 <= i <= |habits|
        invariant impacts == Impacts(habits[..i], datesWithMoodEntries, logs, rows, startDate, endDate)
      {
        impacts := AddImpactOf(impacts, habits, i, datesWithMoodEntries, startDate, endDate);
        i := i + 1;
      }
      assert habits[..|habits|] == habits;
    }
  }
}
