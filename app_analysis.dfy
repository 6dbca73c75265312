/** app.service.AnalysisService: seven insight generators over the answers of the analysis
    queries, and `getSevenRandomAnalyses`, which runs them in a shuffled order and keeps the
    non-empty texts. app.repository.AnalysisRepository is not part of this model: its answers are
    the fields of an `AnalysisData` value. */
module AppAnalysis {
  import opened Common

  // ---------------------------------------------------------------------------
  // Inputs.

  /** java.time.DayOfWeek by its ISO number: 1 is Monday, 7 is Sunday. */
  type DayOfWeek = d: int | 1 <= d <= 7 witness 1

  /** The answers the generators get from the analysis repository. `getRandomHabit` picks
      anew on every call, so each of its two callers gets its own pick. */
  datatype AnalysisData = AnalysisData(
    /** `getRandomHabit()` as seen by `analyzeHabitConsistency`; None for null. */
    consistencyHabit: Option<Habit>,
    /** `getRandomHabit()` as seen by `generateConsistencyRecommendation`. */
    recommendationHabit: Option<Habit>,
    /** `countHabitLogs(habitId, startDate, endDate)`. */
    countHabitLogs: (int, Date, Date) -> nat,
    /** `getHabitsByMood(highMood, limit, startDate, endDate)`: habit names. */
    habitsByMood: (bool, nat, Date, Date) -> seq<string>,
    /** `getAverageMoodByDayOfWeek(startDate, endDate)`: the map's entries in iteration order. */
    averageMoodByDay: (Date, Date) -> seq<(DayOfWeek, real)>)

  // ---------------------------------------------------------------------------
  // Text helpers.

  /** `DayOfWeek.getDisplayName(TextStyle.FULL, new Locale("id", "ID"))`. */
  function DayName(d: DayOfWeek): (r: string)
    ensures r != []
  {
    match d
    case 1 => "Senin"
    case 2 => "Selasa"
    case 3 => "Rabu"
    case 4 => "Kamis"
    case 5 => "Jumat"
    case 6 => "Sabtu"
    case 7 => "Minggu"
  }

  lemma DayNamesDistinct(a: DayOfWeek, b: DayOfWeek)
    requires a != b
    ensures DayName(a) != DayName(b)
  {
  }

  predicate IsDigit(c: char) {
    '0' <= c <= '9'
  }

  /** `%d` of a non-negative number. */
  function NatString(n: nat): (r: string)
    ensures r != []
    ensures forall i :: 0 <= i < |r| ==> IsDigit(r[i])
  {
    if n < 10 then [('0' as int + n) as char]
    else NatString(n / 10) + [('0' as int + n % 10) as char]
  }

  /** The number a string of decimal digits denotes. */
  function DigitsValue(s: string): nat
    requires forall i :: 0 <= i < |s| ==> IsDigit(s[i])
  {
    if s == [] then 0
    else
      assert IsDigit(s[|s| - 1]);
      10 * DigitsValue(s[..|s| - 1]) + (s[|s| - 1] as int - '0' as int)
  }

  /** The digits read back give the number printed. */
  lemma {:induction false} NatStringRoundTrip(n: nat)
    ensures DigitsValue(NatString(n)) == n
  {
    if n >= 10 {
      NatStringRoundTrip(n / 10);
      var s := NatString(n);
      assert s[..|s| - 1] == NatString(n / 10);
    }
  }

  /** `%d` of an int. */
  function IntString(n: int): (r: string)
    ensures r != []
    ensures n >= 0 ==> r == NatString(n)
    ensures n < 0 ==> r == "-" + NatString(-n)
  {
    if n < 0 then "-" + NatString(-n) else NatString(n)
  }

  /** `String.join(sep, parts)`. */
  function Join(sep: string, parts: seq<string>): (r: string)
    ensures parts == [] ==> r == []
    ensures |parts| == 1 ==> r == parts[0]
    ensures |parts| >= 1 ==> |r| >= |parts[0]| && r[..|parts[0]|] == parts[0]
  {
    if parts == [] then []
    else if |parts| == 1 then parts[0]
    else parts[0] + sep + Join(sep, parts[1..])
  }

  // ---------------------------------------------------------------------------
  // Java arithmetic of the consistency percentage: `(count * 100) / totalDays` multiplies two
  // ints (wrapping at 32 bits) and divides, truncating, by the long 7.

  const TotalDays: int := 7

  /** The 32-bit two's-complement value of `x`. */
  function Int32(x: int): (r: int)
    ensures -0x8000_0000 <= r < 0x8000_0000
    ensures (r - x) % 0x1_0000_0000 == 0
    ensures -0x8000_0000 <= x < 0x8000_0000 ==> r == x
  {
    (x + 0x8000_0000) % 0x1_0000_0000 - 0x8000_0000
  }

  /** Java's integer division, which rounds toward zero. */
  function JavaDiv(a: int, b: int): (q: int)
    requires b > 0
    ensures a >= 0 ==> q == a / b
    ensures a < 0 ==> q == -((-a) / b)
  {
    if a >= 0 then a / b else -((-a) / b)
  }

  /** `(count * 100) / totalDays`; whatever the count, the wrapped product divided by seven. */
  function ConsistencyPercent(count: int): (p: int)
    ensures -0x8000_0000 / 7 <= p <= 0x8000_0000 / 7
    ensures 0 <= count * 100 < 0x8000_0000 ==> p == count * 100 / 7
  {
    JavaDiv(Int32(count * 100), TotalDays)
  }

  /** For every count that does not overflow, the percentage is `count*100/7` rounded down;
      for counts of at most seven days it lies in 0..100, and 3 days give 42. */
  lemma ConsistencyPercentValue(count: nat)
    requires count * 100 < 0x8000_0000
    ensures ConsistencyPercent(count) == count * 100 / 7
    ensures count <= 7 ==> 0 <= ConsistencyPercent(count) <= 100
    ensures ConsistencyPercent(7) == 100 && ConsistencyPercent(3) == 42 && ConsistencyPercent(1) == 14
  {
  }

  /** Counts above 21474836 wrap around: the percentage comes out negative. */
  lemma ConsistencyPercentOverflows()
    ensures ConsistencyPercent(21474837) < 0
  {
  }

  // ---------------------------------------------------------------------------
  // The seven generators. `today` stands in for LocalDate.now(); None stands for null.

  /** The fixed opening of each generator's text: the source's literal, written in pieces so that
      the proofs about its first letters stay small. */
  const ConsistencyOpening: string := "Konsistensi: '"
  const HighMoodOpening: string := "Saat mood sedang baik" + ", Anda sering melakukan: "
  const LowMoodOpening: string := "Saat mood sedang kurang" + " baik, Anda tercatat melakukan: "
  const HighestDayOpening: string := "Pola mingguan " + "menunjukkan mood tertinggi " + "Anda sering terjadi pada hari "
  const LowestDayOpening: string := "Hari "
  const PositiveOpening: string := "Rekomendasi: Melakukan '"
  const RecommendationOpening: string := "Saran: Untuk " + "meningkatkan mood, coba tingkatkan frekuensi '"

  /** `analyzeHabitConsistency`: the picked habit's logs over the seven days ending today. */
  function AnalyzeHabitConsistency(data: AnalysisData, today: Date): (r: Option<string>)
    ensures r.Some? <==> data.consistencyHabit.Some?
                         && data.countHabitLogs(data.consistencyHabit.value.id, today - 6, today) > 0
    ensures r.Some? ==> r.value != []
  {
    match data.consistencyHabit
    case None => None
    case Some(habit) =>
      var count := data.countHabitLogs(habit.id, today - 6, today);
      if count > 0 then
        Some(ConsistencyOpening + habit.name + "' dilakukan " + IntString(count) + " dari "
             + IntString(TotalDays) + " hari terakhir (" + IntString(ConsistencyPercent(count)) + "%).")
      else None
  }

  /** `analyzeHabitsWithHighMood`: up to three habits of good-mood days in the last week. */
  function AnalyzeHabitsWithHighMood(data: AnalysisData, today: Date): (r: Option<string>)
    ensures r.Some? <==> data.habitsByMood(true, 3, today - 7, today) != []
    ensures r.Some? ==> r.value != []
  {
    var habits := data.habitsByMood(true, 3, today - 7, today);
    if habits != [] then Some(HighMoodOpening + Join(", ", habits) + ".")
    else None
  }

  /** `analyzeHabitsWithLowMood`: up to three habits of bad-mood days in the last week. */
  function AnalyzeHabitsWithLowMood(data: AnalysisData, today: Date): (r: Option<string>)
    ensures r.Some? <==> data.habitsByMood(false, 3, today - 7, today) != []
    ensures r.Some? ==> r.value != []
  {
    var habits := data.habitsByMood(false, 3, today - 7, today);
    if habits != [] then Some(LowMoodOpening + Join(", ", habits) + ".")
    else None
  }

  /** The first entry with the largest value: `stream().max(comparingByValue())`, which keeps
      the earlier entry on a tie. */
  function MaxIndex(entries: seq<(DayOfWeek, real)>): (i: nat)
    requires entries != []
    ensures i < |entries|
    ensures forall j :: 0 <= j < |entries| ==> entries[j].1 <= entries[i].1
    ensures forall j :: 0 <= j < i ==> entries[j].1 < entries[i].1
  {
    if |entries| == 1 then 0
    else
      var k := MaxIndex(entries[..|entries| - 1]);
      if entries[|entries| - 1].1 > entries[k].1 then |entries| - 1 else k
  }

  /** The first entry with the smallest value: `stream().min(comparingByValue())`. */
  function MinIndex(entries: seq<(DayOfWeek, real)>): (i: nat)
    requires entries != []
    ensures i < |entries|
    ensures forall j :: 0 <= j < |entries| ==> entries[i].1 <= entries[j].1
    ensures forall j :: 0 <= j < i ==> entries[i].1 < entries[j].1
  {
    if |entries| == 1 then 0
    else
      var k := MinIndex(entries[..|entries| - 1]);
      if entries[|entries| - 1].1 < entries[k].1 then |entries| - 1 else k
  }

  /** `analyzeHighestMoodDay`: the weekday with the best average mood in the last week. */
  function AnalyzeHighestMoodDay(data: AnalysisData, today: Date): (r: Option<string>)
    ensures r.Some? <==> data.averageMoodByDay(today - 7, today) != []
    ensures r.Some? ==> r.value != []
  {
    var moodByDay := data.averageMoodByDay(today - 7, today);
    if moodByDay != [] then
      Some(HighestDayOpening
           + DayName(moodByDay[MaxIndex(moodByDay)].0) + ".")
    else None
  }

  /** `analyzeLowestMoodDay`: the weekday with the worst average mood in the last week. */
  function AnalyzeLowestMoodDay(data: AnalysisData, today: Date): (r: Option<string>)
    ensures r.Some? <==> data.averageMoodByDay(today - 7, today) != []
    ensures r.Some? ==> r.value != []
  {
    var moodByDay := data.averageMoodByDay(today - 7, today);
    if moodByDay != [] then
      Some(LowestDayOpening + DayName(moodByDay[MinIndex(moodByDay)].0)
           + " cenderung menjadi hari yang lebih berat untuk Anda minggu ini.")
    else None
  }

  /** `generatePositiveImpactRecommendation`: the first of at most one good-mood habit. */
  function GeneratePositiveImpactRecommendation(data: AnalysisData, today: Date): (r: Option<string>)
    ensures r.Some? <==> data.habitsByMood(true, 1, today - 7, today) != []
    ensures r.Some? ==> r.value != []
  {
    var habits := data.habitsByMood(true, 1, today - 7, today);
    if habits != [] then
      Some(PositiveOpening + habits[0] + "' terbukti membantu menjaga mood tetap stabil. Pertahankan!")
    else None
  }

  /** `generateConsistencyRecommendation`: a nudge for a habit done on one or two of the last
      seven days. */
  function GenerateConsistencyRecommendation(data: AnalysisData, today: Date): (r: Option<string>)
    ensures r.Some? <==> data.recommendationHabit.Some?
                         && data.countHabitLogs(data.recommendationHabit.value.id, today - 6, today) in {1, 2}
    ensures r.Some? ==> r.value != []
  {
    match data.recommendationHabit
    case None => None
    case Some(habit) =>
      var count := data.countHabitLogs(habit.id, today - 6, today);
      if count > 0 && count < 3 then
        Some(RecommendationOpening + habit.name + "' menjadi 4x/minggu.")
      else None
  }

  // ---------------------------------------------------------------------------
  // The pool and its draw.

  /** The method references of `analysisPool`. */
  datatype Generator =
    | HabitConsistency
    | HabitsWithHighMood
    | HabitsWithLowMood
    | HighestMoodDay
    | LowestMoodDay
    | PositiveImpactRecommendation
    | ConsistencyRecommendation

  /** `analysisPool`, in declaration order. */
  const Pool: seq<Generator> := [HabitConsistency, HabitsWithHighMood, HabitsWithLowMood,
    HighestMoodDay, LowestMoodDay, PositiveImpactRecommendation, ConsistencyRecommendation]

  /** `Supplier.get()` of a pool entry. */
  function Run(g: Generator, data: AnalysisData, today: Date): (r: Option<string>)
    ensures r.Some? ==> r.value != []
  {
    match g
    case HabitConsistency => AnalyzeHabitConsistency(data, today)
    case HabitsWithHighMood => AnalyzeHabitsWithHighMood(data, today)
    case HabitsWithLowMood => AnalyzeHabitsWithLowMood(data, today)
    case HighestMoodDay => AnalyzeHighestMoodDay(data, today)
    case LowestMoodDay => AnalyzeLowestMoodDay(data, today)
    case PositiveImpactRecommendation => GeneratePositiveImpactRecommendation(data, today)
    case ConsistencyRecommendation => GenerateConsistencyRecommendation(data, today)
  }

  /** What `Collections.shuffle` may produce: `perm[i]` is the pool position drawn i-th, every
      position drawn once. */
  predicate IsPermutation(perm: seq<nat>) {
    && |perm| == |Pool|
    && (forall i :: 0 <= i < |perm| ==> perm[i] < |Pool|)
    && (forall k :: 0 <= k < |Pool| ==> k in perm)
    && (forall i, j :: 0 <= i < j < |perm| ==> perm[i] != perm[j])
  }

  /** The shuffled copy of the pool; the pool itself is a constant and stays as declared. */
  function Shuffled(perm: seq<nat>): (r: seq<Generator>)
    requires IsPermutation(perm)
    ensures |r| == |Pool|
    ensures forall g :: g in r
    ensures Distinct(r)
  {
    var r := seq(|perm|, i requires 0 <= i < |perm| => Pool[perm[i]]);
    assert forall g :: g in r by {
      forall g ensures g in r {
        var k := match g
          case HabitConsistency => 0
          case HabitsWithHighMood => 1
          case HabitsWithLowMood => 2
          case HighestMoodDay => 3
          case LowestMoodDay => 4
          case PositiveImpactRecommendation => 5
          case ConsistencyRecommendation => 6;
        assert Pool[k] == g;
        assert k in perm;
        var i :| 0 <= i < |perm| && perm[i] == k;
        assert r[i] == g;
      }
    }
    r
  }

  /** The non-empty texts the generators `gs` produce, run in order. */
  function Collected(gs: seq<Generator>, data: AnalysisData, today: Date): (r: seq<string>)
    ensures |r| <= |gs|
    ensures forall i :: 0 <= i < |r| ==> r[i] != []
  {
    if gs == [] then []
    else
      var last := Run(gs[|gs| - 1], data, today);
      Collected(gs[..|gs| - 1], data, today) + (if last.Some? && last.value != [] then [last.value] else [])
  }

  /** Running one more generator adds its text, if it has one, at the end. */
  lemma CollectedSnoc(gs: seq<Generator>, g: Generator, data: AnalysisData, today: Date)
    ensures var last := Run(g, data, today);
            Collected(gs + [g], data, today)
            == Collected(gs, data, today) + (if last.Some? && last.value != [] then [last.value] else [])
  {
    assert (gs + [g])[..|gs|] == gs;
  }

  /** The generator whose fixed opening a text has, read off its first letter and, for the
      three openings that start with 'S', the letters at positions 2 and 17. */
  function Author(t: string): Option<Generator> {
    if |t| < 18 then None
    else if t[0] == 'K' then Some(HabitConsistency)
    else if t[0] == 'P' then Some(HighestMoodDay)
    else if t[0] == 'H' then Some(LowestMoodDay)
    else if t[0] == 'R' then Some(PositiveImpactRecommendation)
    else if t[0] != 'S' then None
    else if t[2] == 'r' then Some(ConsistencyRecommendation)
    else if t[17] == 'b' then Some(HabitsWithHighMood)
    else if t[17] == 'k' then Some(HabitsWithLowMood)
    else None
  }

  // Each generator's text has its opening (one lemma per generator keeps each proof small).

  lemma ConsistencyOpeningMarks()
    ensures ConsistencyOpening[0] == 'K'
  {
  }

  lemma AuthorOfConsistency(data: AnalysisData, today: Date)
    ensures AnalyzeHabitConsistency(data, today).Some? ==> Author(AnalyzeHabitConsistency(data, today).value) == Some(HabitConsistency)
  {
    if AnalyzeHabitConsistency(data, today).Some? {
      var v := AnalyzeHabitConsistency(data, today).value;
      assert v[..|ConsistencyOpening|] == ConsistencyOpening;
      ConsistencyOpeningMarks();
      assert |v| >= 18 && v[0] == ConsistencyOpening[0];
    }
  }

  lemma HighMoodOpeningMarks()
    ensures HighMoodOpening[0] == 'S' && HighMoodOpening[2] == 'a' && HighMoodOpening[17] == 'b'
  {
  }

  lemma AuthorOfHighMood(data: AnalysisData, today: Date)
    ensures AnalyzeHabitsWithHighMood(data, today).Some? ==> Author(AnalyzeHabitsWithHighMood(data, today).value) == Some(HabitsWithHighMood)
  {
    if AnalyzeHabitsWithHighMood(data, today).Some? {
      var v := AnalyzeHabitsWithHighMood(data, today).value;
      assert v[..|HighMoodOpening|] == HighMoodOpening;
      HighMoodOpeningMarks();
      assert v[0] == HighMoodOpening[0] && v[2] == HighMoodOpening[2] && v[17] == HighMoodOpening[17];
    }
  }

  lemma LowMoodOpeningMarks()
    ensures LowMoodOpening[0] == 'S' && LowMoodOpening[2] == 'a' && LowMoodOpening[17] == 'k'
  {
  }

  lemma AuthorOfLowMood(data: AnalysisData, today: Date)
    ensures AnalyzeHabitsWithLowMood(data, today).Some? ==> Author(AnalyzeHabitsWithLowMood(data, today).value) == Some(HabitsWithLowMood)
  {
    if AnalyzeHabitsWithLowMood(data, today).Some? {
      var v := AnalyzeHabitsWithLowMood(data, today).value;
      assert v[..|LowMoodOpening|] == LowMoodOpening;
      LowMoodOpeningMarks();
      assert v[0] == LowMoodOpening[0] && v[2] == LowMoodOpening[2] && v[17] == LowMoodOpening[17];
    }
  }

  lemma HighestDayOpeningMarks()
    ensures HighestDayOpening[0] == 'P'
  {
    // A long literal is split so that its first letters are within reach of the solver.
  }

  lemma AuthorOfHighestDay(data: AnalysisData, today: Date)
    ensures AnalyzeHighestMoodDay(data, today).Some? ==> Author(AnalyzeHighestMoodDay(data, today).value) == Some(HighestMoodDay)
  {
    if AnalyzeHighestMoodDay(data, today).Some? {
      var v := AnalyzeHighestMoodDay(data, today).value;
      assert v[..|HighestDayOpening|] == HighestDayOpening;
      HighestDayOpeningMarks();
      assert v[0] == HighestDayOpening[0];
    }
  }

  lemma LowestDayOpeningMarks()
    ensures LowestDayOpening[0] == 'H'
  {
  }

  lemma AuthorOfLowestDay(data: AnalysisData, today: Date)
    ensures AnalyzeLowestMoodDay(data, today).Some? ==> Author(AnalyzeLowestMoodDay(data, today).value) == Some(LowestMoodDay)
  {
    if AnalyzeLowestMoodDay(data, today).Some? {
      var v := AnalyzeLowestMoodDay(data, today).value;
      assert v[..|LowestDayOpening|] == LowestDayOpening;
      LowestDayOpeningMarks();
      assert |v| >= 18 && v[0] == LowestDayOpening[0];
    }
  }

  lemma PositiveOpeningMarks()
    ensures PositiveOpening[0] == 'R'
  {
  }

  lemma AuthorOfPositive(data: AnalysisData, today: Date)
    ensures GeneratePositiveImpactRecommendation(data, today).Some? ==> Author(GeneratePositiveImpactRecommendation(data, today).value) == Some(PositiveImpactRecommendation)
  {
    if GeneratePositiveImpactRecommendation(data, today).Some? {
      var v := GeneratePositiveImpactRecommendation(data, today).value;
      assert v[..|PositiveOpening|] == PositiveOpening;
      PositiveOpeningMarks();
      assert v[0] == PositiveOpening[0];
    }
  }

  lemma RecommendationOpeningMarks()
    ensures RecommendationOpening[0] == 'S' && RecommendationOpening[2] == 'r'
  {
  }

  lemma AuthorOfRecommendation(data: AnalysisData, today: Date)
    ensures GenerateConsistencyRecommendation(data, today).Some? ==> Author(GenerateConsistencyRecommendation(data, today).value) == Some(ConsistencyRecommendation)
  {
    if GenerateConsistencyRecommendation(data, today).Some? {
      var v := GenerateConsistencyRecommendation(data, today).value;
      assert v[..|RecommendationOpening|] == RecommendationOpening;
      RecommendationOpeningMarks();
      assert v[0] == RecommendationOpening[0] && v[2] == RecommendationOpening[2];
    }
  }

  /** Every text a generator produces has that generator's opening. */
  lemma AuthorOfRun(g: Generator, data: AnalysisData, today: Date)
    ensures Run(g, data, today).Some? ==> Author(Run(g, data, today).value) == Some(g)
  {
    match g
    case HabitConsistency => AuthorOfConsistency(data, today);
    case HabitsWithHighMood => AuthorOfHighMood(data, today);
    case HabitsWithLowMood => AuthorOfLowMood(data, today);
    case HighestMoodDay => AuthorOfHighestDay(data, today);
    case LowestMoodDay => AuthorOfLowestDay(data, today);
    case PositiveImpactRecommendation => AuthorOfPositive(data, today);
    case ConsistencyRecommendation => AuthorOfRecommendation(data, today);
  }

  /** Two different generators never produce the same text. */
  lemma RunTextsApart(g: Generator, h: Generator, data: AnalysisData, today: Date)
    requires g != h && Run(g, data, today).Some? && Run(h, data, today).Some?
    ensures Run(g, data, today).value != Run(h, data, today).value
  {
    AuthorOfRun(g, data, today);
    AuthorOfRun(h, data, today);
  }

  /** Every collected text is the text of one of the generators run. */
  lemma {:induction false} CollectedOrigin(gs: seq<Generator>, data: AnalysisData, today: Date)
    ensures forall t :: t in Collected(gs, data, today) ==> exists g :: g in gs && Run(g, data, today) == Some(t)
  {
    if gs != [] {
      var init := gs[..|gs| - 1];
      CollectedOrigin(init, data, today);
      assert forall g :: g in init ==> g in gs;
      assert gs[|gs| - 1] in gs;
    }
  }

  /** A generator not among `gs` adds a text that `gs` have not produced. */
  lemma NewGeneratorNewText(gs: seq<Generator>, g: Generator, data: AnalysisData, today: Date)
    requires g !in gs && Run(g, data, today).Some?
    ensures Run(g, data, today).value !in Collected(gs, data, today)
  {
    CollectedOrigin(gs, data, today);
    if Run(g, data, today).value in Collected(gs, data, today) {
      var h :| h in gs && Run(h, data, today) == Some(Run(g, data, today).value);
      RunTextsApart(h, g, data, today);
    }
  }

  /** Generators run once each collect pairwise different texts. */
  lemma {:induction false} CollectedDistinct(gs: seq<Generator>, data: AnalysisData, today: Date)
    requires Distinct(gs)
    ensures Distinct(Collected(gs, data, today))
  {
    if gs != [] {
      var init := gs[..|gs| - 1];
      var g := gs[|gs| - 1];
      CollectedDistinct(init, data, today);
      var last := Run(g, data, today);
      if last.Some? && last.value != [] {
        assert g !in init;
        NewGeneratorNewText(init, g, data, today);
        DistinctSnoc(Collected(init, data, today), last.value);
      }
    }
  }

  /** The texts of a draw are pairwise different. */
  lemma DrawDistinct(perm: seq<nat>, data: AnalysisData, today: Date)
    requires IsPermutation(perm)
    ensures Distinct(Collected(Shuffled(perm), data, today))
  {
    CollectedDistinct(Shuffled(perm), data, today);
  }

  /** `getSevenRandomAnalyses` with the shuffle given as `perm`: every generator of the pool is
      invoked exactly once, in shuffled order, and the non-empty texts are kept in that order;
      there are never more than seven. */
  method GetSevenRandomAnalyses(perm: seq<nat>, data: AnalysisData, today: Date)
    returns (analyses: seq<string>, ghost invoked: seq<Generator>)
    requires IsPermutation(perm)
    ensures invoked == Shuffled(perm)
    ensures analyses == Collected(invoked, data, today)
    ensures |analyses| <= 7
    ensures forall i :: 0 <= i < |analyses| ==> analyses[i] != []
    ensures Distinct(analyses)
  {
    var shuffledPool := Shuffled(perm);
    analyses, invoked := [], [];
    var i := 0;
    while i < |shuffledPool|
      invariant 0 <= i <= |shuffledPool|
      invariant invoked == shuffledPool[..i]
      invariant analyses == Collected(invoked, data, today)
      invariant |analyses| <= i
    {
      if |analyses| >= 7 {
        break;
      }
      var result := Run(shuffledPool[i], data, today);
      assert shuffledPool[..i + 1] == invoked + [shuffledPool[i]];
      CollectedSnoc(invoked, shuffledPool[i], data, today);
      invoked := invoked + [shuffledPool[i]];
      if result.Some? && result.value != [] {
        analyses := analyses + [result.value];
      }
      i := i + 1;
    }
    DrawDistinct(perm, data, today);
  }

  // ---------------------------------------------------------------------------
  // What the draw yields.

  /** With no habit picked and every query empty, no generator has anything to say. */
  lemma {:induction false} NoDataNoInsights(gs: seq<Generator>, data: AnalysisData, today: Date)
    requires data.consistencyHabit.None? && data.recommendationHabit.None?
    requires forall high, limit, lo, hi :: data.habitsByMood(high, limit, lo, hi) == []
    requires forall lo, hi :: data.averageMoodByDay(lo, hi) == []
    ensures Collected(gs, data, today) == []
  {
    if gs != [] {
      NoDataNoInsights(gs[..|gs| - 1], data, today);
    }
  }

  /** When every generator in `gs` produces a text, all of them are kept. */
  lemma {:induction false} AllProduceAllKept(gs: seq<Generator>, data: AnalysisData, today: Date)
    requires forall g :: g in gs ==> Run(g, data, today).Some?
    ensures |Collected(gs, data, today)| == |gs|
  {
    if gs != [] {
      AllProduceAllKept(gs[..|gs| - 1], data, today);
    }
  }

  /** With a consistency habit done one or two days, queries that all answer, and any shuffle,
      the draw yields all seven insights. */
  lemma FullDataSevenInsights(perm: seq<nat>, data: AnalysisData, today: Date)
    requires IsPermutation(perm)
    requires data.consistencyHabit.Some?
    requires data.countHabitLogs(data.consistencyHabit.value.id, today - 6, today) > 0
    requires data.recommendationHabit.Some?
    requires data.countHabitLogs(data.recommendationHabit.value.id, today - 6, today) in {1, 2}
    requires data.habitsByMood(true, 3, today - 7, today) != []
    requires data.habitsByMood(false, 3, today - 7, today) != []
    requires data.habitsByMood(true, 1, today - 7, today) != []
    requires data.averageMoodByDay(today - 7, today) != []
    ensures |Collected(Shuffled(perm), data, today)| == 7
  {
    forall g ensures Run(g, data, today).Some? {
    }
    AllProduceAllKept(Shuffled(perm), data, today);
  }
}
