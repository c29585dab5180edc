/**
 * How health metrics relate to mood (`analyzeHealthMoodCorrelations`) and
 * the completeness check of `analyzeMoodFromMetrics`.
 *
 * Both inputs need at least five records and the aligned pairs at least
 * three. Each of the four metrics, read with `|| 0` (a missing or zero
 * reading counts as 0), is correlated with the mood scores of the pairs,
 * labelled, and kept only when the coefficient exceeds 0.1 in absolute
 * value. Coefficients are kept exact (see the `Correlation` module).
 */
module MoodAnalysis {
  import opened Wrappers
  import opened Schema
  import opened Stats
  import opened Correlation
  import opened Alignment

  /** The four metrics, in the order the source pushes their correlations. */
  datatype Factor = HeartRate | SleepQuality | PhysicalActivity | StressLevel

  /** `factor` of the result record. */
  function Label(f: Factor): string
  {
    match f
    case HeartRate => "Heart Rate"
    case SleepQuality => "Sleep Quality"
    case PhysicalActivity => "Physical Activity"
    case StressLevel => "Stress Level"
  }

  /** The name `describeCorrelation` is given. */
  function Subject(f: Factor): string
  {
    match f
    case HeartRate => "heart rate"
    case SleepQuality => "sleep duration"
    case PhysicalActivity => "daily steps"
    case StressLevel => "stress level"
  }

  /** The position of the factor in the result order. */
  function Rank(f: Factor): nat
  {
    match f
    case HeartRate => 0
    case SleepQuality => 1
    case PhysicalActivity => 2
    case StressLevel => 3
  }

  function Factors(): (r: seq<Factor>)
    ensures |r| == 4 && forall i :: 0 <= i < 4 ==> Rank(r[i]) == i
  {
    [HeartRate, SleepQuality, PhysicalActivity, StressLevel]
  }

  /** `x || 0` on a nullable integer column. */
  function IntOrZero(x: Option<int>): (r: real)
    ensures x.None? ==> r == 0.0
    ensures x.Some? ==> r == x.value as real
  {
    if x.Some? then x.value as real else 0.0
  }

  /** `x || 0` on a nullable real column. */
  function RealOrZero(x: Option<real>): (r: real)
    ensures x.None? ==> r == 0.0
    ensures x.Some? ==> r == x.value
  {
    if x.Some? then x.value else 0.0
  }

  /** The metric's reading of the factor, a missing reading counting as 0. */
  function Reading(m: HealthMetric, f: Factor): real
  {
    match f
    case HeartRate => IntOrZero(m.heartRate)
    case SleepQuality => RealOrZero(m.sleepHours)
    case PhysicalActivity => IntOrZero(m.steps)
    case StressLevel => IntOrZero(m.stressLevel)
  }

  /** `alignedData.map(d => d.healthMetric.<factor> || 0)` */
  function Series(pairs: seq<AlignedPair>, f: Factor): (r: seq<real>)
    ensures |r| == |pairs| && forall i :: 0 <= i < |pairs| ==> r[i] == Reading(pairs[i].healthMetric, f)
  {
    seq(|pairs|, i requires 0 <= i < |pairs| => Reading(pairs[i].healthMetric, f))
  }

  /** `alignedData.map(d => d.moodEntry.score)` */
  function MoodScores(pairs: seq<AlignedPair>): (r: seq<real>)
    ensures |r| == |pairs| && forall i :: 0 <= i < |pairs| ==> r[i] == pairs[i].moodEntry.score
  {
    seq(|pairs|, i requires 0 <= i < |pairs| => pairs[i].moodEntry.score)
  }

  datatype MoodCorrelation = MoodCorrelation(
    factor: string,
    correlation: Coefficient,
    significance: string,
    description: string)

  /** The record the source pushes for one factor. */
  function CorrelationFor(pairs: seq<AlignedPair>, f: Factor): (r: MoodCorrelation)
    ensures r.factor == Label(f)
  {
    var c := CalculateCorrelation(Series(pairs, f), MoodScores(pairs));
    MoodCorrelation(Label(f), c, SignificanceOf(c), DescriptionOf(Subject(f), c))
  }

  /** The records of the four factors, in the order the source pushes them. */
  function Pushed(corr: Factor -> MoodCorrelation): (r: seq<MoodCorrelation>)
    ensures |r| == 4 && forall i :: 0 <= i < 4 ==> r[i] == corr(Factors()[i])
  {
    [corr(HeartRate), corr(SleepQuality), corr(PhysicalActivity), corr(StressLevel)]
  }

  /** The four records, before the filter. */
  function Candidates(pairs: seq<AlignedPair>): seq<MoodCorrelation>
  {
    Pushed((f: Factor) => CorrelationFor(pairs, f))
  }

  /** The filter `Math.abs(c.correlation) > 0.1`. */
  predicate Strong(c: MoodCorrelation)
  {
    Exceeds(c.correlation, 0.1)
  }

  /** `filter(c => Math.abs(c.correlation) > 0.1)`: the strong records, in order. */
  function KeepStrong(cs: seq<MoodCorrelation>): (r: seq<MoodCorrelation>)
    ensures |r| <= |cs|
    ensures forall c :: c in r <==> c in cs && Strong(c)
  {
    if cs == [] then []
    else
      var front, last := cs[..|cs| - 1], cs[|cs| - 1];
      assert cs == front + [last];
      KeepStrong(front) + (if Strong(last) then [last] else [])
  }

  /** The factor labels in the order the source pushes them, for comparing positions. */
  function LabelRank(name: string): int
  {
    if name == "Heart Rate" then 0
    else if name == "Sleep Quality" then 1
    else if name == "Physical Activity" then 2
    else if name == "Stress Level" then 3
    else 4
  }

  predicate InFactorOrder(cs: seq<MoodCorrelation>)
  {
    forall i, j :: 0 <= i < j < |cs| ==> LabelRank(cs[i].factor) < LabelRank(cs[j].factor)
  }

  /** Filtering keeps the records in the order they had. */
  lemma {:induction false} KeepStrongInOrder(cs: seq<MoodCorrelation>)
    requires InFactorOrder(cs)
    ensures InFactorOrder(KeepStrong(cs))
  {
    if cs != [] {
      var front, last := cs[..|cs| - 1], cs[|cs| - 1];
      assert InFactorOrder(front);
      KeepStrongInOrder(front);
      var kept := KeepStrong(front);
      forall i | 0 <= i < |kept| ensures LabelRank(kept[i].factor) < LabelRank(last.factor) {
        assert kept[i] in front;
        var j :| 0 <= j < |front| && front[j] == kept[i];
        assert cs[j] == front[j];
      }
    }
  }

  /** What `analyzeHealthMoodCorrelations` returns. */
  function HealthMoodCorrelations(healthMetrics: seq<HealthMetric>, moodEntries: seq<MoodEntry>): seq<MoodCorrelation>
  {
    if |healthMetrics| < 5 || |moodEntries| < 5 then []
    else
      var alignedData := Aligned(healthMetrics, moodEntries);
      if |alignedData| < 3 then [] else KeepStrong(Candidates(alignedData))
  }

  /** The four records built from the four coefficients are the candidates. */
  lemma CandidatesOf(pairs: seq<AlignedPair>, heartRate: Coefficient, sleep: Coefficient,
                     steps: Coefficient, stress: Coefficient)
    requires heartRate == CalculateCorrelation(Series(pairs, HeartRate), MoodScores(pairs))
    requires sleep == CalculateCorrelation(Series(pairs, SleepQuality), MoodScores(pairs))
    requires steps == CalculateCorrelation(Series(pairs, PhysicalActivity), MoodScores(pairs))
    requires stress == CalculateCorrelation(Series(pairs, StressLevel), MoodScores(pairs))
    ensures Candidates(pairs) == [
      MoodCorrelation("Heart Rate", heartRate, SignificanceOf(heartRate), DescriptionOf("heart rate", heartRate)),
      MoodCorrelation("Sleep Quality", sleep, SignificanceOf(sleep), DescriptionOf("sleep duration", sleep)),
      MoodCorrelation("Physical Activity", steps, SignificanceOf(steps), DescriptionOf("daily steps", steps)),
      MoodCorrelation("Stress Level", stress, SignificanceOf(stress), DescriptionOf("stress level", stress))]
  {
  }

  /** `analyzeHealthMoodCorrelations` */
  method AnalyzeHealthMoodCorrelations(healthMetrics: seq<HealthMetric>, moodEntries: seq<MoodEntry>)
    returns (correlations: seq<MoodCorrelation>)
    ensures correlations == HealthMoodCorrelations(healthMetrics, moodEntries)
  {
    correlations := [];
    if |healthMetrics| < 5 || |moodEntries| < 5 {
      return correlations;
    }
    var alignedData := AlignDataByTimestamp(healthMetrics, moodEntries);
    if |alignedData| < 3 {
      assert HealthMoodCorrelations(healthMetrics, moodEntries) == [];
      return correlations;
    }
    var moodScores := MoodScores(alignedData);
    var heartRateCorr := CalculateCorrelation(Series(alignedData, HeartRate), moodScores);
    var sleepCorr := CalculateCorrelation(Series(alignedData, SleepQuality), moodScores);
    var stepsCorr := CalculateCorrelation(Series(alignedData, PhysicalActivity), moodScores);
    var stressCorr := CalculateCorrelation(Series(alignedData, StressLevel), moodScores);
    correlations := correlations + [
      MoodCorrelation("Heart Rate", heartRateCorr, SignificanceOf(heartRateCorr), DescriptionOf("heart rate", heartRateCorr)),
      MoodCorrelation("Sleep Quality", sleepCorr, SignificanceOf(sleepCorr), DescriptionOf("sleep duration", sleepCorr)),
      MoodCorrelation("Physical Activity", stepsCorr, SignificanceOf(stepsCorr), DescriptionOf("daily steps", stepsCorr)),
      MoodCorrelation("Stress Level", stressCorr, SignificanceOf(stressCorr), DescriptionOf("stress level", stressCorr))];
    CandidatesOf(alignedData, heartRateCorr, sleepCorr, stepsCorr, stressCorr);
    assert correlations == Candidates(alignedData);
    assert HealthMoodCorrelations(healthMetrics, moodEntries) == KeepStrong(Candidates(alignedData));
    correlations := KeepStrong(correlations);
  }

  /**
   * Of four records labelled with the four factors, the filter keeps, in
   * factor order, exactly those whose coefficient exceeds 0.1 in absolute
   * value.
   */
  lemma KeepStrongPushed(corr: Factor -> MoodCorrelation)
    requires forall f :: corr(f).factor == Label(f)
    ensures |KeepStrong(Pushed(corr))| <= 4
    ensures InFactorOrder(KeepStrong(Pushed(corr)))
    ensures forall f :: corr(f) in KeepStrong(Pushed(corr)) <==> Strong(corr(f))
    ensures forall c :: c in KeepStrong(Pushed(corr)) ==> exists f :: c == corr(f)
  {
    var cs := Pushed(corr);
    assert InFactorOrder(cs);
    KeepStrongInOrder(cs);
    forall f ensures corr(f) in cs {
      assert cs[Rank(f)] == corr(f);
    }
  }

  /** The same for the four records of the aligned pairs. */
  lemma StrongCandidates(pairs: seq<AlignedPair>)
    ensures |KeepStrong(Candidates(pairs))| <= 4
    ensures InFactorOrder(KeepStrong(Candidates(pairs)))
    ensures forall f :: CorrelationFor(pairs, f) in KeepStrong(Candidates(pairs)) <==> Strong(CorrelationFor(pairs, f))
    ensures forall c :: c in KeepStrong(Candidates(pairs)) ==> exists f :: c == CorrelationFor(pairs, f)
  {
    KeepStrongPushed((f: Factor) => CorrelationFor(pairs, f));
  }

  /**
   * Fewer than five metrics or moods, or fewer than three aligned pairs,
   * give no correlations; otherwise the result holds, in the fixed factor
   * order, exactly the factors whose coefficient on the aligned pairs
   * exceeds 0.1 in absolute value.
   */
  lemma HealthMoodCorrelationsSpec(healthMetrics: seq<HealthMetric>, moodEntries: seq<MoodEntry>)
    ensures |healthMetrics| < 5 || |moodEntries| < 5 || |Aligned(healthMetrics, moodEntries)| < 3 ==>
      HealthMoodCorrelations(healthMetrics, moodEntries) == []
    ensures |HealthMoodCorrelations(healthMetrics, moodEntries)| <= 4
    ensures InFactorOrder(HealthMoodCorrelations(healthMetrics, moodEntries))
    ensures |healthMetrics| >= 5 && |moodEntries| >= 5 && |Aligned(healthMetrics, moodEntries)| >= 3 ==>
      forall f :: CorrelationFor(Aligned(healthMetrics, moodEntries), f) in HealthMoodCorrelations(healthMetrics, moodEntries) <==>
        Strong(CorrelationFor(Aligned(healthMetrics, moodEntries), f))
    ensures forall c :: c in HealthMoodCorrelations(healthMetrics, moodEntries) ==>
      exists f :: c == CorrelationFor(Aligned(healthMetrics, moodEntries), f)
  {
    StrongCandidates(Aligned(healthMetrics, moodEntries));
  }

  /**
   * Every reported correlation stands for a number in `[-1, 1]` whose
   * absolute value exceeds 0.1; its significance is the level of that
   * absolute value, and its description the sentence for that number.
   */
  lemma ReportedCorrelationMeaning(pairs: seq<AlignedPair>, f: Factor, r: real)
    requires Strong(CorrelationFor(pairs, f))
    requires Denotes(CorrelationFor(pairs, f).correlation, r)
    ensures -1.0 <= r <= 1.0 && Abs(r) > 0.1
    ensures CorrelationFor(pairs, f).significance == SignificanceLevel(Abs(r))
    ensures CorrelationFor(pairs, f).description == DescribeCorrelation(Subject(f), r)
  {
    var c := CalculateCorrelation(Series(pairs, f), MoodScores(pairs));
    CorrelationInRange(Series(pairs, f), MoodScores(pairs), r);
    ThresholdsExact(c, r, 0.1);
    SignificanceOfExact(c, r);
    DescriptionOfExact(Subject(f), c, r);
  }

  /** A factor whose readings are all the same on the pairs is never reported. */
  lemma ConstantFactorNotReported(pairs: seq<AlignedPair>, f: Factor)
    requires IsConstant(Series(pairs, f))
    ensures !Strong(CorrelationFor(pairs, f))
  {
    CorrelationZeroCases(Series(pairs, f), MoodScores(pairs));
  }

  /** The four readings `analyzeMoodFromMetrics` hands to the mood model. */
  datatype Readings = Readings(heartRate: int, sleepHours: real, steps: int, stressLevel: int)

  /** A reading the source's `!value` test rejects: missing or zero. */
  predicate Falsy<T(==)>(x: Option<T>, zero: T)
  {
    x.None? || x.value == zero
  }

  /**
   * The guard of `analyzeMoodFromMetrics`: it passes exactly when all four
   * readings are present and non-zero, and then hands them on unchanged;
   * otherwise it fails with the source's message.
   */
  function MetricReadings(m: HealthMetric): (r: Result<Readings>)
    ensures r.Success? <==>
      m.heartRate.Some? && m.heartRate.value != 0 &&
      m.sleepHours.Some? && m.sleepHours.value != 0.0 &&
      m.steps.Some? && m.steps.value != 0 &&
      m.stressLevel.Some? && m.stressLevel.value != 0
    ensures r.Success? ==>
      Some(r.value.heartRate) == m.heartRate && Some(r.value.sleepHours) == m.sleepHours &&
      Some(r.value.steps) == m.steps && Some(r.value.stressLevel) == m.stressLevel
    ensures r.Failure? ==> r.error == "Incomplete health metrics for mood analysis"
  {
    if Falsy(m.heartRate, 0) || Falsy(m.sleepHours, 0.0) || Falsy(m.steps, 0) || Falsy(m.stressLevel, 0) then
      Failure("Incomplete health metrics for mood analysis")
    else
      Success(Readings(m.heartRate.value, m.sleepHours.value, m.steps.value, m.stressLevel.value))
  }
}
