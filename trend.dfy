/**
 * The trend and the confidence of a group of mood entries
 * (`calculateTrend`, `calculateConfidence`).
 *
 * `calculateTrend` sorts the array it is given in place, chronologically
 * (a missing timestamp counts as the epoch), then compares the mean score
 * of the earlier half with that of the later half. The halves are
 * `slice(0, ceil(n / 2))` and `slice(floor(n / 2))`, so for an odd number of
 * entries the middle entry belongs to both.
 */
module Trends {
  import opened Schema
  import opened Stats
  import opened Sorting

  datatype Trend = Improving | Declining | Stable

  /** The sort key of `calculateTrend`: `timestamp?.getTime() || 0`. */
  function ByTime(e: MoodEntry): int
  {
    Time(e.timestamp)
  }

  function Scores(entries: seq<MoodEntry>): (r: seq<real>)
    ensures |r| == |entries| && forall i :: 0 <= i < |entries| ==> r[i] == entries[i].score
  {
    seq(|entries|, i requires 0 <= i < |entries| => entries[i].score)
  }

  function Confidences(entries: seq<MoodEntry>): (r: seq<real>)
    ensures |r| == |entries| && forall i :: 0 <= i < |entries| ==> r[i] == entries[i].confidence
  {
    seq(|entries|, i requires 0 <= i < |entries| => entries[i].confidence)
  }

  /** `slice(0, ceil(n / 2))` */
  function EarlierHalf<T>(s: seq<T>): seq<T>
  {
    s[..(|s| + 1) / 2]
  }

  /** `slice(floor(n / 2))` */
  function LaterHalf<T>(s: seq<T>): seq<T>
  {
    s[|s| / 2..]
  }

  /**
   * Both halves hold `ceil(n / 2)` entries; together they are the whole
   * series, with the middle entry counted twice when `n` is odd.
   */
  lemma HalvesCover<T>(s: seq<T>)
    ensures |EarlierHalf(s)| == |LaterHalf(s)|
    ensures EarlierHalf(s) + LaterHalf(s)[|s| % 2..] == s
    ensures |s| % 2 == 1 ==> EarlierHalf(s)[|s| / 2] == LaterHalf(s)[0] == s[|s| / 2]
  {
    assert EarlierHalf(s) + LaterHalf(s)[|s| % 2..] == s[..(|s| + 1) / 2] + s[(|s| + 1) / 2..];
  }

  /** A difference of means above 0.5 improves, below -0.5 declines. */
  function Classify(difference: real): Trend
  {
    if difference > 0.5 then Improving
    else if difference < -0.5 then Declining
    else Stable
  }

  /** What `calculateTrend` returns for the entries it is given. */
  function TrendOf(entries: seq<MoodEntry>): Trend
  {
    if |entries| < 2 then Stable
    else
      var sorted := SortBy(entries, ByTime);
      Classify(Mean(Scores(LaterHalf(sorted))) - Mean(Scores(EarlierHalf(sorted))))
  }

  /**
   * `calculateTrend`: with two entries or more, sorts `entries` in place by
   * time, then classifies the change of the mean score between the halves.
   */
  method CalculateTrend(entries: array<MoodEntry>) returns (trend: Trend)
    modifies entries
    ensures trend == TrendOf(old(entries[..]))
    ensures entries.Length < 2 ==> entries[..] == old(entries[..])
    ensures entries.Length >= 2 ==> entries[..] == SortBy(old(entries[..]), ByTime)
  {
    if entries.Length < 2 {
      return Stable;
    }
    InsertionSortBy(entries, ByTime);
    trend := ClassifyHalves(entries[..]);
  }

  /**
   * The rest of `calculateTrend`, on the sorted entries: the mean score of
   * each half and the classification of their difference.
   */
  method ClassifyHalves(sorted: seq<MoodEntry>) returns (trend: Trend)
    requires |sorted| >= 2
    ensures SortedBy(sorted, ByTime) ==> trend == TrendOf(sorted)
    ensures trend == Improving <==> Mean(Scores(LaterHalf(sorted))) - Mean(Scores(EarlierHalf(sorted))) > 0.5
    ensures trend == Declining <==> Mean(Scores(LaterHalf(sorted))) - Mean(Scores(EarlierHalf(sorted))) < -0.5
  {
    var first := EarlierHalf(sorted);
    var last := LaterHalf(sorted);
    var firstAvg := Mean(Scores(first));
    var lastAvg := Mean(Scores(last));
    var difference := lastAvg - firstAvg;
    if difference > 0.5 {
      trend := Improving;
    } else if difference < -0.5 {
      trend := Declining;
    } else {
      trend := Stable;
    }
    if SortedBy(sorted, ByTime) {
      SortBySortedIsIdentity(sorted, ByTime);
    }
  }

  /** Entries already in chronological order get the same trend: only that order matters. */
  lemma TrendOfSorted(entries: seq<MoodEntry>)
    ensures TrendOf(SortBy(entries, ByTime)) == TrendOf(entries)
  {
    SortByIsSorted(entries, ByTime);
    SortBySortedIsIdentity(SortBy(entries, ByTime), ByTime);
  }

  /** Entries that all carry the same score are stable. */
  lemma ConstantScoresAreStable(entries: seq<MoodEntry>, c: real)
    requires forall i :: 0 <= i < |entries| ==> entries[i].score == c
    ensures TrendOf(entries) == Stable
  {
    if |entries| >= 2 {
      var sorted := SortBy(entries, ByTime);
      SortByPermutes(entries, ByTime);
      forall e | e in sorted ensures e.score == c {
        assert e in multiset(entries);
      }
      var earlier, later := EarlierHalf(sorted), LaterHalf(sorted);
      assert forall e :: e in earlier ==> e in sorted;
      assert forall e :: e in later ==> e in sorted;
      ScoresAtMost(earlier, c);
      ScoresAtLeast(earlier, c);
      ScoresAtMost(later, c);
      ScoresAtLeast(later, c);
    }
  }

  /**
   * When every score of the later half exceeds every score of the earlier
   * half by more than 0.5 the trend is improving.
   */
  lemma SeparatedHalves(entries: seq<MoodEntry>, lo: real, hi: real)
    requires |entries| >= 2 && hi - lo > 0.5
    requires forall e :: e in EarlierHalf(SortBy(entries, ByTime)) ==> e.score <= lo
    requires forall e :: e in LaterHalf(SortBy(entries, ByTime)) ==> e.score >= hi
    ensures TrendOf(entries) == Improving
  {
    var sorted := SortBy(entries, ByTime);
    ScoresAtMost(EarlierHalf(sorted), lo);
    ScoresAtLeast(LaterHalf(sorted), hi);
  }

  /** Scores that are all at most `lo` have a mean of at most `lo`. */
  lemma ScoresAtMost(entries: seq<MoodEntry>, lo: real)
    requires entries != []
    requires forall e :: e in entries ==> e.score <= lo
    ensures Mean(Scores(entries)) <= lo
  {
    var scores := Scores(entries);
    forall i | 0 <= i < |scores| ensures Min(scores) <= scores[i] <= lo {
      assert entries[i] in entries;
    }
    MeanWithin(scores, Min(scores), lo);
  }

  /** Scores that are all at least `hi` have a mean of at least `hi`. */
  lemma ScoresAtLeast(entries: seq<MoodEntry>, hi: real)
    requires entries != []
    requires forall e :: e in entries ==> e.score >= hi
    ensures Mean(Scores(entries)) >= hi
  {
    var scores := Scores(entries);
    forall i | 0 <= i < |scores| ensures hi <= scores[i] <= Max(scores) {
      assert entries[i] in entries;
    }
    MeanWithin(scores, hi, Max(scores));
  }

  /** `min(a, b)` */
  function Least(a: real, b: real): (m: real)
    ensures m <= a && m <= b && (m == a || m == b)
  {
    if a <= b then a else b
  }

  /**
   * `calculateConfidence`: the mean confidence plus a bonus of a tenth per
   * entry, at most 0.2, capped at 1.0. The source divides by the number of
   * entries, so it is only meaningful for a non-empty group.
   */
  function CalculateConfidence(entries: seq<MoodEntry>): (r: real)
    requires entries != []
    ensures r <= 1.0
    ensures r >= Least(Mean(Confidences(entries)), 1.0)
    ensures |entries| >= 2 ==> r == Least(Mean(Confidences(entries)) + 0.2, 1.0)
    ensures |entries| == 1 ==> r == Least(entries[0].confidence + 0.1, 1.0)
  {
    assert |entries| == 1 ==> Confidences(entries) == [entries[0].confidence] && Sum([entries[0].confidence]) == entries[0].confidence;
    var avgConfidence := Mean(Confidences(entries));
    var dataPointsBonus := Least(|entries| as real / 10.0, 0.2);
    Least(avgConfidence + dataPointsBonus, 1.0)
  }

  /** With every confidence in `[0, 1]` the blended confidence is in `[0, 1]` too. */
  lemma ConfidenceInUnitRange(entries: seq<MoodEntry>)
    requires entries != []
    requires forall i :: 0 <= i < |entries| ==> 0.0 <= entries[i].confidence <= 1.0
    ensures 0.0 <= CalculateConfidence(entries) <= 1.0
  {
    MeanWithin(Confidences(entries), 0.0, 1.0);
  }

  lemma {:induction false} SumAppend(xs: seq<real>, v: real)
    ensures Sum(xs + [v]) == Sum(xs) + v
  {
    if xs != [] {
      assert (xs + [v])[1..] == xs[1..] + [v];
      SumAppend(xs[1..], v);
    }
  }

  lemma {:induction false} InsertByKeepsConfidenceSum(sorted: seq<MoodEntry>, x: MoodEntry, key: MoodEntry -> int)
    ensures Sum(Confidences(InsertBy(sorted, x, key))) == Sum(Confidences(sorted)) + x.confidence
  {
    var r := InsertBy(sorted, x, key);
    if sorted == [] || key(sorted[|sorted| - 1]) <= key(x) {
      assert Confidences(r) == Confidences(sorted) + [x.confidence];
      SumAppend(Confidences(sorted), x.confidence);
    } else {
      var front, last := sorted[..|sorted| - 1], sorted[|sorted| - 1];
      InsertByKeepsConfidenceSum(front, x, key);
      assert Confidences(r) == Confidences(InsertBy(front, x, key)) + [last.confidence];
      assert Confidences(sorted) == Confidences(front) + [last.confidence];
      SumAppend(Confidences(InsertBy(front, x, key)), last.confidence);
      SumAppend(Confidences(front), last.confidence);
    }
  }

  lemma {:induction false} SortByKeepsConfidenceSum(entries: seq<MoodEntry>, key: MoodEntry -> int)
    ensures Sum(Confidences(SortBy(entries, key))) == Sum(Confidences(entries))
  {
    if entries != [] {
      var front, last := entries[..|entries| - 1], entries[|entries| - 1];
      SortByKeepsConfidenceSum(front, key);
      InsertByKeepsConfidenceSum(SortBy(front, key), last, key);
      assert Confidences(entries) == Confidences(front) + [last.confidence];
      SumAppend(Confidences(front), last.confidence);
    }
  }

  /**
   * The confidence does not depend on the order of the entries, so reading
   * it after `calculateTrend` has sorted the group gives the same value.
   */
  lemma ConfidenceAfterSort(entries: seq<MoodEntry>)
    requires entries != []
    ensures CalculateConfidence(SortBy(entries, ByTime)) == CalculateConfidence(entries)
  {
    SortByKeepsConfidenceSum(entries, ByTime);
  }
}
