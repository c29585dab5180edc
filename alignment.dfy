/**
 * Pairing health metrics with mood entries by time (`alignDataByTimestamp`).
 *
 * Each timestamped metric is paired with the mood entry nearest to it in
 * time among those at most one day away; the source finds it by filtering
 * the moods, sorting them stably by distance and taking the first, so
 * equally near moods are decided by their order in the input.
 */
module Alignment {
  import opened Wrappers
  import opened Schema
  import opened Sorting

  /** `24 * 60 * 60 * 1000` milliseconds. */
  const OneDay: int := 86400000

  datatype AlignedPair = AlignedPair(healthMetric: HealthMetric, moodEntry: MoodEntry)

  function IntAbs(x: int): (a: int)
    ensures a >= 0 && (a == x || a == -x)
  {
    if x < 0 then -x else x
  }

  /** The sort key: how far a mood entry lies from time `t`. */
  function Distance(t: int): MoodEntry -> int
  {
    (m: MoodEntry) => IntAbs(Time(m.timestamp) - t)
  }

  /** The filter: the mood has a timestamp and lies at most a day from `t`. */
  predicate Near(m: MoodEntry, t: int)
  {
    m.timestamp.Some? && IntAbs(m.timestamp.value - t) <= OneDay
  }

  /** `moodEntries.filter(...)`: the moods near `t`, in input order. */
  function NearMoods(moods: seq<MoodEntry>, t: int): (r: seq<MoodEntry>)
    ensures forall m :: m in r ==> m in moods && Near(m, t)
    ensures forall i :: 0 <= i < |moods| && Near(moods[i], t) ==> moods[i] in r
  {
    if moods == [] then []
    else
      var front, last := moods[..|moods| - 1], moods[|moods| - 1];
      assert moods == front + [last];
      if Near(last, t) then NearMoods(front, t) + [last] else NearMoods(front, t)
  }

  /** `filter(...).sort(...)[0]`: the mood the source pairs with a metric at time `t`. */
  function Closest(moods: seq<MoodEntry>, t: int): (c: Option<MoodEntry>)
    ensures c.None? <==> forall i :: 0 <= i < |moods| ==> !Near(moods[i], t)
    ensures c.Some? ==> c.value in moods && Near(c.value, t)
  {
    var near := NearMoods(moods, t);
    if near == [] then None
    else
      assert near[0] in moods && Near(near[0], t);
      SortByPermutes(near, Distance(t));
      assert SortBy(near, Distance(t))[0] in multiset(near);
      Some(SortBy(near, Distance(t))[0])
  }

  /**
   * The position in `moods` of the first mood of least distance among those
   * near `t`: a reference definition by a scan over the input.
   */
  function ClosestIndex(moods: seq<MoodEntry>, t: int): (r: Option<nat>)
    ensures r.None? <==> forall j :: 0 <= j < |moods| ==> !Near(moods[j], t)
    ensures r.Some? ==> r.value < |moods| && Near(moods[r.value], t)
    ensures r.Some? ==> forall j :: 0 <= j < |moods| && Near(moods[j], t) ==>
      Distance(t)(moods[r.value]) <= Distance(t)(moods[j])
    ensures r.Some? ==> forall j :: 0 <= j < r.value && Near(moods[j], t) ==>
      Distance(t)(moods[j]) > Distance(t)(moods[r.value])
  {
    if moods == [] then None
    else
      var front, last := moods[..|moods| - 1], moods[|moods| - 1];
      var rest := ClosestIndex(front, t);
      assert forall j :: 0 <= j < |front| ==> moods[j] == front[j];
      if !Near(last, t) then rest
      else if rest.None? || Distance(t)(last) < Distance(t)(front[rest.value]) then Some(|moods| - 1)
      else rest
  }

  /**
   * `moods[i]` is near `t`, no near mood is nearer, and every earlier near
   * mood is further away.
   */
  predicate FirstNearest(moods: seq<MoodEntry>, t: int, i: nat)
  {
    i < |moods| && Near(moods[i], t) &&
    (forall j :: 0 <= j < |moods| && Near(moods[j], t) ==> Distance(t)(moods[i]) <= Distance(t)(moods[j])) &&
    (forall j :: 0 <= j < i && Near(moods[j], t) ==> Distance(t)(moods[j]) > Distance(t)(moods[i]))
  }

  /** The filtered, stably sorted head and the scan pick the same mood. */
  lemma {:induction false} SortedHeadIsScan(moods: seq<MoodEntry>, t: int)
    ensures NearMoods(moods, t) != [] <==> ClosestIndex(moods, t).Some?
    ensures NearMoods(moods, t) != [] ==>
      NearMoods(moods, t)[FirstMinIndex(NearMoods(moods, t), Distance(t))] == moods[ClosestIndex(moods, t).value]
  {
    if moods != [] {
      var front, last := moods[..|moods| - 1], moods[|moods| - 1];
      SortedHeadIsScan(front, t);
      var nf := NearMoods(front, t);
      var near := NearMoods(moods, t);
      if Near(last, t) {
        assert near == nf + [last];
        assert near[..|near| - 1] == nf;
      }
    }
  }

  /**
   * The paired mood is near the metric, no near mood is nearer, and every
   * equally near mood comes later in the input; no mood is paired exactly
   * when no mood is near.
   */
  lemma ClosestIsFirstNearest(moods: seq<MoodEntry>, t: int)
    ensures Closest(moods, t).None? <==> forall j :: 0 <= j < |moods| ==> !Near(moods[j], t)
    ensures Closest(moods, t).Some? ==>
      exists i: nat :: FirstNearest(moods, t, i) && moods[i] == Closest(moods, t).value
  {
    SortedHeadIsScan(moods, t);
    var near := NearMoods(moods, t);
    if near != [] {
      SortByHead(near, Distance(t));
      var i := ClosestIndex(moods, t).value;
      assert FirstNearest(moods, t, i) && moods[i] == Closest(moods, t).value;
    }
  }

  /** The metric paired with its mood, if it has a timestamp and a mood lies within a day. */
  function PairFor(metric: HealthMetric, moods: seq<MoodEntry>): seq<AlignedPair>
  {
    if metric.timestamp.None? then []
    else
      match Closest(moods, metric.timestamp.value)
      case None => []
      case Some(mood) => [AlignedPair(metric, mood)]
  }

  /** The pairs of `alignDataByTimestamp`: one per pairable metric, in metric order. */
  function Aligned(metrics: seq<HealthMetric>, moods: seq<MoodEntry>): (r: seq<AlignedPair>)
    ensures |r| <= |metrics|
    ensures forall p :: p in r ==>
      p.healthMetric in metrics && p.healthMetric.timestamp.Some? &&
      Closest(moods, p.healthMetric.timestamp.value) == Some(p.moodEntry)
  {
    if metrics == [] then []
    else
      var front := metrics[..|metrics| - 1];
      assert forall m :: m in front ==> m in metrics;
      Aligned(front, moods) + PairFor(metrics[|metrics| - 1], moods)
  }

  /** Aligning a concatenation aligns each part: the pairs keep the order of the metrics. */
  lemma {:induction false} AlignedConcat(ms1: seq<HealthMetric>, ms2: seq<HealthMetric>, moods: seq<MoodEntry>)
    ensures Aligned(ms1 + ms2, moods) == Aligned(ms1, moods) + Aligned(ms2, moods)
    decreases |ms2|
  {
    if ms2 != [] {
      var front := ms2[..|ms2| - 1];
      assert (ms1 + ms2)[..|ms1 + ms2| - 1] == ms1 + front;
      AlignedConcat(ms1, front, moods);
    } else {
      assert ms1 + ms2 == ms1;
    }
  }

  /** One metric yields at most one pair, the one `PairFor` describes. */
  lemma AlignedSingle(metric: HealthMetric, moods: seq<MoodEntry>)
    ensures Aligned([metric], moods) == PairFor(metric, moods)
    ensures |Aligned([metric], moods)| == 1 <==>
      metric.timestamp.Some? && exists j :: 0 <= j < |moods| && Near(moods[j], metric.timestamp.value)
  {
    assert [metric][..0] == [];
    if metric.timestamp.Some? {
      ClosestIsFirstNearest(moods, metric.timestamp.value);
    }
  }

  /** `alignDataByTimestamp`: pushes each metric's pair onto the result in turn. */
  method AlignDataByTimestamp(metrics: seq<HealthMetric>, moods: seq<MoodEntry>) returns (aligned: seq<AlignedPair>)
    ensures aligned == Aligned(metrics, moods)
  {
    aligned := [];
    var i := 0;
    while i < |metrics|
      invariant 0 <= i <= |metrics|
      invariant aligned == Aligned(metrics[..i], moods)
    {
      var metric := metrics[i];
      assert metrics[..i + 1][..i] == metrics[..i];
      if metric.timestamp.Some? {
        var closest := Closest(moods, metric.timestamp.value);
        if closest.Some? {
          aligned := aligned + [AlignedPair(metric, closest.value)];
        }
      }
      i := i + 1;
    }
    assert metrics[..|metrics|] == metrics;
  }
}
