/** com.project.app.repository.AnalysisRepository: the date queries and the average-mood query
    of the habit/mood impact analysis, over the `mood` and `habit_logs` tables that the two
    store classes hold. */
module LegacyAnalysisRepository {
  import opened Common
  import opened MoodTable
  import LegacyHabitRepository
  import LegacyMoodRepository

  // ---------------------------------------------------------------------------
  // The two date queries.

  function HasMoodPred(rows: seq<Mood>): Date -> bool {
    d => OnDate(rows, d) != []
  }

  /** `SELECT DISTINCT date FROM mood WHERE date BETWEEN ? AND ? ORDER BY date`. */
  function MoodDatesBetween(rows: seq<Mood>, lo: Date, hi: Date): (r: seq<Date>)
    ensures forall d :: d in r <==> lo <= d <= hi && exists m :: m in rows && m.date == d
    ensures StrictlyAscending(r)
  {
    forall d ensures HasMoodPred(rows)(d) <==> exists m :: m in rows && m.date == d {
      if OnDate(rows, d) != [] {
        assert OnDate(rows, d)[0] in OnDate(rows, d);
      }
      if exists m :: m in rows && m.date == d {
        var m :| m in rows && m.date == d;
        assert m in OnDate(rows, d);
      }
    }
    DaysWhere(lo, hi, HasMoodPred(rows))
  }

  function LoggedPred(logs: map<(int, Date), bool>, habitId: int): Date -> bool {
    d => (habitId, d) in logs
  }

  function CompletedPred(logs: map<(int, Date), bool>, habitId: int): Date -> bool {
    d => LegacyHabitRepository.Flag(logs, habitId, d)
  }

  /** `SELECT date FROM habit_logs WHERE habit_id = ? AND date BETWEEN ? AND ? ORDER BY date`
      as written: every logged day, whatever its `is_completed` flag. */
  function LoggedDatesBetween(logs: map<(int, Date), bool>, habitId: int, lo: Date, hi: Date): (r: seq<Date>)
    ensures forall d :: d in r <==> lo <= d <= hi && (habitId, d) in logs
    ensures StrictlyAscending(r)
  {
    DaysWhere(lo, hi, LoggedPred(logs, habitId))
  }

  /** The days of the range on which the habit is completed: the query with
      `AND is_completed = TRUE`. */
  function CompletedDatesBetween(logs: map<(int, Date), bool>, habitId: int, lo: Date, hi: Date): (r: seq<Date>)
    ensures forall d :: d in r <==> lo <= d <= hi && LegacyHabitRepository.Flag(logs, habitId, d)
    ensures StrictlyAscending(r)
  {
    DaysWhere(lo, hi, CompletedPred(logs, habitId))
  }

  /** The query as written counts a day the user checked and then unchecked as completed:
      unchecking writes `is_completed = false` into the same row, which the query still finds. */
  lemma UncheckedDayCountsAsCompleted(logs: map<(int, Date), bool>, habitId: int, d: Date)
    requires (habitId, d) in logs && !logs[(habitId, d)]
    ensures d in LoggedDatesBetween(logs, habitId, d, d)
    ensures d !in CompletedDatesBetween(logs, habitId, d, d)
  {
  }

  /** Concretely: checking habit 1 on day 0 and then unchecking it leaves the row
      `(1, 0, false)`; the query as written still returns day 0. */
  lemma CheckThenUncheckWitness()
    ensures LoggedDatesBetween(map[(1, 0) := false], 1, 0, 0) == [0]
    ensures CompletedDatesBetween(map[(1, 0) := false], 1, 0, 0) == []
  {
    var logs := map[(1, 0) := false];
    assert DaysWhere(0, -1, LoggedPred(logs, 1)) == [];
    assert DaysWhere(0, -1, CompletedPred(logs, 1)) == [];
    assert LoggedPred(logs, 1)(0);
    assert !CompletedPred(logs, 1)(0);
  }

  /** Every completed day is a logged day: the corrected list is a sub-list of the written one. */
  lemma CompletedAreLogged(logs: map<(int, Date), bool>, habitId: int, lo: Date, hi: Date)
    ensures forall d :: d in CompletedDatesBetween(logs, habitId, lo, hi) ==> d in LoggedDatesBetween(logs, habitId, lo, hi)
  {
  }

  // ---------------------------------------------------------------------------
  // The IN clause.

  /** The placeholder list for n dates: n question marks separated by commas. */
  function Placeholders(n: nat): (r: string)
    ensures |r| == if n == 0 then 0 else 2 * n - 1
    ensures forall i :: 0 <= i < |r| ==> r[i] == if i % 2 == 0 then '?' else ','
  {
    if n == 0 then ""
    else if n == 1 then "?"
    else Placeholders(n - 1) + ",?"
  }

  function CountChar(s: string, c: char): nat {
    if s == [] then 0 else CountChar(s[..|s| - 1], c) + (if s[|s| - 1] == c then 1 else 0)
  }

  lemma {:induction false} CountCharAppend(a: string, b: string, c: char)
    ensures CountChar(a + b, c) == CountChar(a, c) + CountChar(b, c)
  {
    if b == [] {
      assert a + b == a;
    } else {
      assert (a + b)[..|a + b| - 1] == a + b[..|b| - 1];
      CountCharAppend(a, b[..|b| - 1], c);
    }
  }

  /** n placeholders and n - 1 commas, starting and ending with a placeholder. */
  lemma {:induction false} PlaceholderCounts(n: nat)
    requires n >= 1
    ensures CountChar(Placeholders(n), '?') == n
    ensures CountChar(Placeholders(n), ',') == n - 1
    ensures Placeholders(n)[0] == '?' && Placeholders(n)[|Placeholders(n)| - 1] == '?'
  {
    if n == 1 {
      assert "?"[..0] == "";
    } else {
      PlaceholderCounts(n - 1);
      CountCharAppend(Placeholders(n - 1), ",?", '?');
      CountCharAppend(Placeholders(n - 1), ",?", ',');
      assert ",?"[..1] == ",";
      assert ","[..0] == "";
    }
  }

  /** The StringBuilder loop of `getAverageMoodForDates`. */
  method BuildPlaceholders(n: nat) returns (s: string)
    ensures s == Placeholders(n)
  {
    s := "";
    var i := 0;
    while i < n
      invariant 0 <= i <= n
      invariant i == 0 ==> s == ""
      invariant i > 0 ==> s == Placeholders(i) + (if i < n then "," else "")
    {
      s := s + "?";
      if i < n - 1 {
        s := s + ",";
      }
      i := i + 1;
    }
  }

  /** The parameter loop: parameter i + 1 is bound to `dates[i]`. */
  method BindDates(dates: seq<Date>) returns (params: map<int, Date>)
    ensures forall k :: k in params <==> 1 <= k <= |dates|
    ensures forall i :: 0 <= i < |dates| ==> params[i + 1] == dates[i]
  {
    params := map[];
    var i := 0;
    while i < |dates|
      invariant 0 <= i <= |dates|
      invariant forall k :: k in params <==> 1 <= k <= i
      invariant forall j :: 0 <= j < i ==> params[j + 1] == dates[j]
    {
      params := params[i + 1 := dates[i]];
      i := i + 1;
    }
  }

  // ---------------------------------------------------------------------------
  // AVG(mood_value) over the rows whose date is listed.

  function InDatesPred(dates: seq<Date>): Mood -> bool {
    (m: Mood) => m.date in dates
  }

  function SumValues(ms: seq<Mood>): int {
    if ms == [] then 0 else SumValues(ms[..|ms| - 1]) + ms[|ms| - 1].value
  }

  /** `SELECT AVG(mood_value) FROM mood WHERE date IN (...)`, read with `getDouble`: the SQL NULL
      of an empty match reads as 0.0. Doubles are taken as exact reals. */
  function AverageMood(rows: seq<Mood>, dates: seq<Date>): (avg: real)
    ensures (forall m :: m in rows ==> m.date !in dates) ==> avg == 0.0
  {
    var ms := Filter(rows, InDatesPred(dates));
    if ms == [] then 0.0
    else
      assert ms[0] in ms;
      SumValues(ms) as real / |ms| as real
  }

  lemma {:induction false} SumValuesBounds(ms: seq<Mood>)
    requires forall m :: m in ms ==> 1 <= m.value <= 5
    ensures |ms| <= SumValues(ms) <= 5 * |ms|
  {
    if ms != [] {
      var init := ms[..|ms| - 1];
      assert forall m :: m in init ==> m in ms;
      assert ms[|ms| - 1] in ms;
      SumValuesBounds(init);
    }
  }

  lemma MeanBounds(sum: real, n: real)
    requires n > 0.0 && n <= sum <= 5.0 * n
    ensures 1.0 <= sum / n <= 5.0
  {
    assert sum / n * n == sum;
  }

  /** With values on the 1..5 scale and at least one matching row, the average is on the scale. */
  lemma AverageWithinScale(rows: seq<Mood>, dates: seq<Date>, sample: Mood)
    requires forall m :: m in rows ==> 1 <= m.value <= 5
    requires sample in rows && sample.date in dates
    ensures 1.0 <= AverageMood(rows, dates) <= 5.0
  {
    var ms := Filter(rows, InDatesPred(dates));
    assert sample in ms;
    SumValuesBounds(ms);
    MeanBounds(SumValues(ms) as real, |ms| as real);
  }

  /** The prepared statement `getAverageMoodForDates` runs. */
  datatype SqlCall = SqlCall(sql: string, params: map<int, Date>)

  class AnalysisRepository {
    const moods: LegacyMoodRepository.MoodRepository
    const habits: LegacyHabitRepository.HabitRepository

    constructor (moods: LegacyMoodRepository.MoodRepository, habits: LegacyHabitRepository.HabitRepository)
      ensures this.moods == moods && this.habits == habits
    {
      this.moods := moods;
      this.habits := habits;
    }

    /** The distinct days of the range that hold a mood row, ascending; a driver failure at row
        k leaves the days before it. */
    method GetDatesWithMoodEntries(startDate: Date, endDate: Date, fault: Option<nat>) returns (dates: seq<Date>)
      ensures dates == Cut(MoodDatesBetween(moods.rows, startDate, endDate), fault)
      ensures StrictlyAscending(dates)
      ensures forall d :: d in dates ==> startDate <= d <= endDate
    {
      var rs := MoodDatesBetween(moods.rows, startDate, endDate);
      dates := ReadRows(rs, fault);
    }

    /** The days of the range on which the habit is completed, ascending (the corrected query:
        see `LoggedDatesBetween` for the days the query as written returns). */
    method GetHabitCompletedDates(habitId: int, startDate: Date, endDate: Date, fault: Option<nat>) returns (dates: seq<Date>)
      ensures dates == Cut(CompletedDatesBetween(habits.logs, habitId, startDate, endDate), fault)
      ensures StrictlyAscending(dates)
      ensures forall d :: d in dates ==> startDate <= d <= endDate && LegacyHabitRepository.Flag(habits.logs, habitId, d)
    {
      var rs := CompletedDatesBetween(habits.logs, habitId, startDate, endDate);
      dates := ReadRows(rs, fault);
    }

    /** 0.0 without any query for an empty list; otherwise one `?` per date, each bound to its
        date, and the average of the matching rows, or 0.0 on failure. */
    method GetAverageMoodForDates(dates: seq<Date>, fault: bool) returns (avg: real, call: Option<SqlCall>)
      ensures dates == [] ==> avg == 0.0 && call.None?
      ensures dates != [] ==> call.Some?
                              && call.value.sql == "SELECT AVG(mood_value) FROM mood WHERE date IN (" + Placeholders(|dates|) + ")"
                              && CountChar(Placeholders(|dates|), '?') == |dates|
                              && (forall k :: k in call.value.params <==> 1 <= k <= |dates|)
                              && (forall i :: 0 <= i < |dates| ==> call.value.params[i + 1] == dates[i])
      ensures avg == if dates == [] || fault then 0.0 else AverageMood(moods.rows, dates)
    {
      if dates == [] {
        return 0.0, None;
      }
      var placeholders := BuildPlaceholders(|dates|);
      var sql := "SELECT AVG(mood_value) FROM mood WHERE date IN (" + placeholders + ")";
      var params := BindDates(dates);
      PlaceholderCounts(|dates|);
      call := Some(SqlCall(sql, params));
      if fault {
        return 0.0, call;
      }
      avg := AverageMood(moods.rows, dates);
    }
  }
}
