/**
 * Weekly mood patterns (`analyzeMoodPatterns`, `groupByWeek`, `countMoods`).
 *
 * Timestamped entries are grouped under their week key, the groups kept in
 * the order their keys are first seen; each group yields a pattern with its
 * mean score, its most frequent mood, its trend and its confidence.
 */
module WeeklyPatterns {
  import opened Wrappers
  import opened Schema
  import opened Stats
  import opened Sorting
  import opened OrderedMaps
  import opened Calendar
  import opened Trends

  /*
   * The grouping is stated for any key function `weekOf` from timestamps to
   * keys; `groupByWeek` uses `WeekKey`. Nothing below depends on how keys
   * are computed.
   */

  /** The keys of the timestamped entries, in input order, repeats included. */
  function WeekKeys(entries: seq<MoodEntry>, weekOf: int -> string): (r: seq<string>)
    ensures forall i :: 0 <= i < |entries| && entries[i].timestamp.Some? ==>
      weekOf(entries[i].timestamp.value) in r
  {
    if entries == [] then []
    else
      var front, last := entries[..|entries| - 1], entries[|entries| - 1];
      assert forall i :: 0 <= i < |front| ==> entries[i] == front[i];
      WeekKeys(front, weekOf) + (if last.timestamp.Some? then [weekOf(last.timestamp.value)] else [])
  }

  /** `e` has a timestamp and it falls in week `k`. */
  predicate InWeekOf(e: MoodEntry, weekOf: int -> string, k: string)
  {
    e.timestamp.Some? && weekOf(e.timestamp.value) == k
  }

  /** The timestamped entries with key `k`, in input order. */
  function InWeek(entries: seq<MoodEntry>, weekOf: int -> string, k: string): (r: seq<MoodEntry>)
    ensures forall e :: e in r ==> e in entries && InWeekOf(e, weekOf, k)
    ensures forall i :: 0 <= i < |entries| && InWeekOf(entries[i], weekOf, k) ==> entries[i] in r
  {
    if entries == [] then []
    else
      var front, last := entries[..|entries| - 1], entries[|entries| - 1];
      assert forall i :: 0 <= i < |front| ==> entries[i] == front[i];
      InWeek(front, weekOf, k) + (if InWeekOf(last, weekOf, k) then [last] else [])
  }

  /** Every key that occurs has a non-empty group. */
  lemma {:induction false} InWeekNonEmpty(entries: seq<MoodEntry>, weekOf: int -> string, k: string)
    requires k in WeekKeys(entries, weekOf)
    ensures InWeek(entries, weekOf, k) != []
  {
    var front, last := entries[..|entries| - 1], entries[|entries| - 1];
    if k in WeekKeys(front, weekOf) {
      InWeekNonEmpty(front, weekOf, k);
    }
  }

  /** Each seen key with its group, keys in first-seen order. */
  function GroupsBy(entries: seq<MoodEntry>, weekOf: int -> string): Table<seq<MoodEntry>>
  {
    Table(Distinct(WeekKeys(entries, weekOf)), GroupMap(entries, weekOf))
  }

  /** Each seen key with its group. */
  function GroupMap(entries: seq<MoodEntry>, weekOf: int -> string): map<string, seq<MoodEntry>>
  {
    map k | k in WeekKeys(entries, weekOf) :: InWeek(entries, weekOf, k)
  }

  /** `groupByWeek`'s step: put `e` at the end of its week's list, creating the list when new. */
  function AddToWeek(weeks: Table<seq<MoodEntry>>, k: string, e: MoodEntry): Table<seq<MoodEntry>>
  {
    weeks.Put(k, (if k in weeks.entries then weeks.entries[k] else []) + [e])
  }

  /** The groups built one entry at a time, as `groupByWeek` builds them. */
  function Grouped(entries: seq<MoodEntry>, weekOf: int -> string): Table<seq<MoodEntry>>
  {
    if entries == [] then Table([], map[])
    else
      var front, last := entries[..|entries| - 1], entries[|entries| - 1];
      if last.timestamp.None? then Grouped(front, weekOf)
      else AddToWeek(Grouped(front, weekOf), weekOf(last.timestamp.value), last)
  }

  lemma GroupedStep(entries: seq<MoodEntry>, weekOf: int -> string, e: MoodEntry)
    ensures e.timestamp.None? ==> Grouped(entries + [e], weekOf) == Grouped(entries, weekOf)
    ensures e.timestamp.Some? ==>
      Grouped(entries + [e], weekOf) == AddToWeek(Grouped(entries, weekOf), weekOf(e.timestamp.value), e)
  {
    assert (entries + [e])[..|entries|] == entries;
  }

  /** The map `groupByWeek` returns. */
  function WeeklyGroups(entries: seq<MoodEntry>): Table<seq<MoodEntry>>
  {
    Grouped(entries, WeekKey)
  }

  /** A key that never occurs has an empty group. */
  lemma {:induction false} InWeekAbsent(entries: seq<MoodEntry>, weekOf: int -> string, k: string)
    requires k !in WeekKeys(entries, weekOf)
    ensures InWeek(entries, weekOf, k) == []
  {
    if entries != [] {
      var front := entries[..|entries| - 1];
      assert k !in WeekKeys(front, weekOf);
      InWeekAbsent(front, weekOf, k);
    }
  }

  /** One more entry extends only its own week's group. */
  lemma InWeekStep(entries: seq<MoodEntry>, weekOf: int -> string, e: MoodEntry, k: string)
    ensures InWeekOf(e, weekOf, k) ==> InWeek(entries + [e], weekOf, k) == InWeek(entries, weekOf, k) + [e]
    ensures !InWeekOf(e, weekOf, k) ==> InWeek(entries + [e], weekOf, k) == InWeek(entries, weekOf, k)
  {
    var s := entries + [e];
    assert s[..|s| - 1] == entries;
  }

  /** An entry without a timestamp changes no group. */
  lemma GroupsBySkip(entries: seq<MoodEntry>, weekOf: int -> string, e: MoodEntry)
    requires e.timestamp.None?
    ensures GroupsBy(entries + [e], weekOf) == GroupsBy(entries, weekOf)
  {
    var s := entries + [e];
    assert s[..|s| - 1] == entries;
    assert WeekKeys(s, weekOf) == WeekKeys(entries, weekOf);
    var g, h := GroupsBy(entries, weekOf), GroupsBy(s, weekOf);
    forall k | k in h.entries ensures k in g.entries && h.entries[k] == g.entries[k] {
      InWeekStep(entries, weekOf, e, k);
    }
    assert h.entries == g.entries;
  }

  /** How one more timestamped entry changes the group of one key `k'`. */
  lemma GroupMapStepKey(entries: seq<MoodEntry>, weekOf: int -> string, e: MoodEntry, k': string)
    requires e.timestamp.Some?
    ensures var k := weekOf(e.timestamp.value);
      var g, h := GroupMap(entries, weekOf), GroupMap(entries + [e], weekOf);
      (k' in h <==> k' in g || k' == k) &&
      (k' in h ==> h[k'] == (if k' in g then g[k'] else []) + (if k' == k then [e] else []))
  {
    var s := entries + [e];
    assert s[..|s| - 1] == entries;
    var k := weekOf(e.timestamp.value);
    if k !in WeekKeys(entries, weekOf) {
      InWeekAbsent(entries, weekOf, k);
    }
    InWeekStep(entries, weekOf, e, k');
  }

  lemma SameGroups(h: map<string, seq<MoodEntry>>, g: map<string, seq<MoodEntry>>,
                   entries: seq<MoodEntry>, weekOf: int -> string, e: MoodEntry)
    requires e.timestamp.Some?
    requires h == GroupMap(entries + [e], weekOf) && g == GroupMap(entries, weekOf)
    ensures var k := weekOf(e.timestamp.value);
      h == g[k := (if k in g then g[k] else []) + [e]]
  {
    var k := weekOf(e.timestamp.value);
    var put := g[k := (if k in g then g[k] else []) + [e]];
    forall k' | k' in h ensures k' in put && h[k'] == put[k'] {
      GroupMapStepKey(entries, weekOf, e, k');
    }
    forall k' | k' in put ensures k' in h {
      GroupMapStepKey(entries, weekOf, e, k');
    }
  }

  /** A timestamped entry is appended to the group of its key, which is created when new. */
  lemma GroupsByAdd(entries: seq<MoodEntry>, weekOf: int -> string, e: MoodEntry)
    requires e.timestamp.Some?
    ensures var g := GroupsBy(entries, weekOf);
      var k := weekOf(e.timestamp.value);
      GroupsBy(entries + [e], weekOf) == AddToWeek(g, k, e)
  {
    var s := entries + [e];
    var k := weekOf(e.timestamp.value);
    assert s[..|s| - 1] == entries;
    assert WeekKeys(s, weekOf) == WeekKeys(entries, weekOf) + [k];
    DistinctStep(WeekKeys(entries, weekOf), k);
    SameGroups(GroupMap(s, weekOf), GroupMap(entries, weekOf), entries, weekOf, e);
  }

  /** Building the groups one entry at a time gives the groups of the reference definition. */
  lemma {:induction false} GroupedIsGroupsBy(entries: seq<MoodEntry>, weekOf: int -> string)
    ensures Grouped(entries, weekOf) == GroupsBy(entries, weekOf)
  {
    if entries != [] {
      var front, last := entries[..|entries| - 1], entries[|entries| - 1];
      assert entries == front + [last];
      GroupedIsGroupsBy(front, weekOf);
      if last.timestamp.None? {
        GroupsBySkip(front, weekOf, last);
      } else {
        GroupsByAdd(front, weekOf, last);
      }
    } else {
      assert GroupsBy(entries, weekOf).entries == map[];
    }
  }

  /** The loop of `groupByWeek`, for any key function. */
  method GroupBy(entries: seq<MoodEntry>, weekOf: int -> string) returns (weeks: Table<seq<MoodEntry>>)
    ensures weeks == Grouped(entries, weekOf)
  {
    weeks := Table([], map[]);
    var i := 0;
    while i < |entries|
      invariant 0 <= i <= |entries|
      invariant weeks == Grouped(entries[..i], weekOf)
    {
      var entry := entries[i];
      assert entries[..i + 1] == entries[..i] + [entry];
      GroupedStep(entries[..i], weekOf, entry);
      if entry.timestamp.Some? {
        var weekKey := weekOf(entry.timestamp.value);
        if weekKey !in weeks.entries {
          weeks := weeks.Put(weekKey, []);
        }
        weeks := weeks.Put(weekKey, weeks.entries[weekKey] + [entry]);
      }
      i := i + 1;
    }
    assert entries[..|entries|] == entries;
  }

  /** `groupByWeek`: adds each timestamped entry to its week's list, creating the list when new. */
  method GroupByWeek(entries: seq<MoodEntry>) returns (weeks: Table<seq<MoodEntry>>)
    ensures weeks == WeeklyGroups(entries)
  {
    weeks := GroupBy(entries, WeekKey);
  }

  /**
   * The groups: a valid table whose keys are the distinct keys in
   * first-seen order, each holding exactly the timestamped entries of its
   * week, none of them empty.
   */
  lemma GroupsBySpec(entries: seq<MoodEntry>, weekOf: int -> string)
    ensures GroupsBy(entries, weekOf).Valid()
    ensures GroupsBy(entries, weekOf).order == Distinct(WeekKeys(entries, weekOf))
    ensures forall i, j :: 0 <= i < j < |GroupsBy(entries, weekOf).order| ==>
      FirstIndex(WeekKeys(entries, weekOf), GroupsBy(entries, weekOf).order[i]) <
      FirstIndex(WeekKeys(entries, weekOf), GroupsBy(entries, weekOf).order[j])
    ensures forall k :: k in GroupsBy(entries, weekOf).entries ==>
      GroupsBy(entries, weekOf).entries[k] == InWeek(entries, weekOf, k) && InWeek(entries, weekOf, k) != []
    ensures forall i :: 0 <= i < |entries| && entries[i].timestamp.Some? ==>
      var k := weekOf(entries[i].timestamp.value);
      k in GroupsBy(entries, weekOf).entries && entries[i] in GroupsBy(entries, weekOf).entries[k]
  {
    DistinctInFirstSeenOrder(WeekKeys(entries, weekOf));
    forall k | k in WeekKeys(entries, weekOf) ensures InWeek(entries, weekOf, k) != [] {
      InWeekNonEmpty(entries, weekOf, k);
    }
  }

  function Moods(entries: seq<MoodEntry>): (r: seq<string>)
    ensures |r| == |entries| && forall i :: 0 <= i < |entries| ==> r[i] == entries[i].mood
  {
    seq(|entries|, i requires 0 <= i < |entries| => entries[i].mood)
  }

  lemma MoodsStep(entries: seq<MoodEntry>)
    requires entries != []
    ensures Moods(entries) == Moods(entries[..|entries| - 1]) + [entries[|entries| - 1].mood]
  {
  }

  /** The record `countMoods` builds, one entry at a time. */
  function MoodCounts(entries: seq<MoodEntry>): (counts: Table<nat>)
    ensures counts.Valid()
  {
    if entries == [] then Table([], map[])
    else
      var c, mood := MoodCounts(entries[..|entries| - 1]), entries[|entries| - 1].mood;
      c.Put(mood, (if mood in c.entries then c.entries[mood] else 0) + 1)
  }

  /** The counts are each mood's number of occurrences, the moods in first-seen order. */
  lemma MoodCountsAreCounts(entries: seq<MoodEntry>)
    ensures MoodCounts(entries) == Counts(Moods(entries))
  {
    MoodCountsOrder(entries);
    MoodCountsEntries(entries);
  }

  lemma {:induction false} MoodCountsOrder(entries: seq<MoodEntry>)
    ensures MoodCounts(entries).order == Distinct(Moods(entries))
  {
    if entries != [] {
      var front, last := entries[..|entries| - 1], entries[|entries| - 1];
      MoodCountsOrder(front);
      MoodsStep(entries);
      var c := MoodCounts(front);
      PutKeepsDistinct(c, Moods(front), last.mood, (if last.mood in c.entries then c.entries[last.mood] else 0) + 1);
    }
  }

  lemma {:induction false} MoodCountsEntries(entries: seq<MoodEntry>)
    ensures MoodCounts(entries).entries == CountMap(Moods(entries))
  {
    if entries != [] {
      var front, last := entries[..|entries| - 1], entries[|entries| - 1];
      MoodCountsEntries(front);
      MoodsStep(entries);
      CountMapStep(Moods(front), last.mood);
    } else {
      assert CountMap(Moods(entries)) == map[];
    }
  }

  /** `countMoods`: increments the count of each entry's mood. */
  method CountMoods(entries: seq<MoodEntry>) returns (counts: Table<nat>)
    ensures counts == MoodCounts(entries)
  {
    counts := Table([], map[]);
    var i := 0;
    while i < |entries|
      invariant 0 <= i <= |entries|
      invariant counts == MoodCounts(entries[..i])
    {
      var entry := entries[i];
      assert entries[..i + 1][..i] == entries[..i];
      var previous := if entry.mood in counts.entries then counts.entries[entry.mood] else 0;
      counts := counts.Put(entry.mood, previous + 1);
      i := i + 1;
    }
    assert entries[..|entries|] == entries;
  }

  /** `Object.entries(counts)`: the (mood, count) pairs in key order. */
  function CountEntries(counts: Table<nat>): (r: seq<(string, nat)>)
    requires counts.Valid()
    ensures |r| == |counts.order|
    ensures forall i :: 0 <= i < |r| ==> r[i] == (counts.order[i], counts.entries[counts.order[i]])
  {
    seq(|counts.order|, i requires 0 <= i < |counts.order| => (counts.order[i], counts.entries[counts.order[i]]))
  }

  /** The comparator `(a, b) => b - a` on counts: descending, as ascending on the negated count. */
  function ByCountDescending(p: (string, nat)): int
  {
    -(p.1 as int)
  }

  /** `sort(...)[0]?.[0] || 'neutral'`: no mood, or the empty mood, reads as `neutral`. */
  function DominantMood(counts: Table<nat>): (m: string)
    requires counts.Valid()
    ensures m == "neutral" || (m in counts.entries && m != "")
    ensures counts.order == [] ==> m == "neutral"
  {
    var pairs := CountEntries(counts);
    if pairs == [] then "neutral"
    else
      SortByPermutes(pairs, ByCountDescending);
      assert SortBy(pairs, ByCountDescending)[0] in multiset(pairs);
      var top := SortBy(pairs, ByCountDescending)[0].0;
      if top == "" then "neutral" else top
  }

  /** `mood || 'neutral'` */
  function NeutralIfEmpty(mood: string): string
  {
    if mood == "" then "neutral" else mood
  }

  /**
   * The `i`-th distinct mood occurs at least as often as every mood, and
   * more often than every mood first seen before it.
   */
  predicate FirstMostFrequent(moods: seq<string>, i: int)
  {
    var d := Distinct(moods);
    0 <= i < |d| &&
    (forall x :: x in moods ==> multiset(moods)[x] <= multiset(moods)[d[i]]) &&
    (forall j :: 0 <= j < i ==> multiset(moods)[d[j]] < multiset(moods)[d[i]])
  }

  /**
   * The dominant mood of a group is a mood of the group that occurs at
   * least as often as every other, and more often than every mood seen
   * before it; the empty mood is reported as `neutral`.
   */
  lemma DominantMoodIsFirstMostFrequent(entries: seq<MoodEntry>)
    requires entries != []
    ensures exists i :: (FirstMostFrequent(Moods(entries), i) &&
      DominantMood(MoodCounts(entries)) == NeutralIfEmpty(Distinct(Moods(entries))[i]))
  {
    MoodCountsAreCounts(entries);
    assert Moods(entries) != [];
    DominantOfCounts(Moods(entries));
  }

  /** The same for any non-empty list of moods, counted by the reference definition. */
  lemma DominantOfCounts(moods: seq<string>)
    requires moods != []
    ensures exists i :: (FirstMostFrequent(moods, i) && DominantMood(Counts(moods)) == NeutralIfEmpty(Distinct(moods)[i]))
  {
    var counts := Counts(moods);
    var order := counts.order;
    var ms := multiset(moods);
    assert moods[0] in order;
    var pairs := CountEntries(counts);
    SortByHead(pairs, ByCountDescending);
    var i := FirstMinIndex(pairs, ByCountDescending);
    var m := order[i];
    assert pairs[i] == (m, ms[m]);
    forall x | x in moods ensures ms[x] <= ms[m] {
      var j := FirstIndex(order, x);
      assert ByCountDescending(pairs[i]) <= ByCountDescending(pairs[j]);
    }
    forall j | 0 <= j < i ensures ms[order[j]] < ms[m] {
      assert ByCountDescending(pairs[j]) > ByCountDescending(pairs[i]);
    }
    assert FirstMostFrequent(moods, i);
  }

  datatype MoodPattern = MoodPattern(
    period: string,
    averageMood: real,
    dominantMood: string,
    trend: Trend,
    confidence: real)

  /** The pattern of one week's group. */
  function PatternOf(week: string, group: seq<MoodEntry>): MoodPattern
    requires group != []
  {
    MoodPattern("Week " + week, Mean(Scores(group)), DominantMood(MoodCounts(group)),
      TrendOf(group), CalculateConfidence(group))
  }

  /**
   * The body of `analyzeMoodPatterns`' loop for one week: the mean score,
   * the dominant mood, the trend of the week's group held in an array
   * (which `calculateTrend` sorts in place) and the confidence read from
   * that sorted array. The group's array is not shared with the caller
   * here, so the in-place sort is not seen outside.
   */
  method PatternOfWeek(week: string, entries: seq<MoodEntry>) returns (pattern: MoodPattern)
    requires entries != []
    ensures pattern == PatternOf(week, entries)
  {
    var avgScore := Mean(Scores(entries));
    var moodCounts := CountMoods(entries);
    var dominantMood := DominantMood(moodCounts);
    var sorted := new MoodEntry[|entries|](j requires 0 <= j < |entries| => entries[j]);
    assert sorted[..] == entries;
    var trend := CalculateTrend(sorted);
    ConfidenceAfterSort(entries);
    var confidence := CalculateConfidence(sorted[..]);
    pattern := MoodPattern("Week " + week, avgScore, dominantMood, trend, confidence);
  }

  /** The groups built one entry at a time: keys in first-seen order, each with its non-empty group. */
  lemma GroupedSpec(entries: seq<MoodEntry>, weekOf: int -> string)
    ensures Grouped(entries, weekOf).Valid()
    ensures Grouped(entries, weekOf).order == Distinct(WeekKeys(entries, weekOf))
    ensures forall k :: k in Grouped(entries, weekOf).entries ==>
      Grouped(entries, weekOf).entries[k] == InWeek(entries, weekOf, k) && InWeek(entries, weekOf, k) != []
  {
    GroupedIsGroupsBy(entries, weekOf);
    GroupsBySpec(entries, weekOf);
  }

  /** `pattern` applied to the group of each of `keys`, in that order. */
  function PatternsFor(weeks: Table<seq<MoodEntry>>, keys: seq<string>, pattern: (string, seq<MoodEntry>) --> MoodPattern): (r: seq<MoodPattern>)
    requires forall k :: k in keys ==> k in weeks.entries && pattern.requires(k, weeks.entries[k])
    ensures |r| == |keys|
  {
    if keys == [] then []
    else
      var front, last := keys[..|keys| - 1], keys[|keys| - 1];
      assert forall k :: k in front ==> k in keys;
      PatternsFor(weeks, front, pattern) + [pattern(last, weeks.entries[last])]
  }

  /** The `i`-th pattern is the pattern of the group of the `i`-th key. */
  lemma {:induction false} PatternsForAt(weeks: Table<seq<MoodEntry>>, keys: seq<string>, pattern: (string, seq<MoodEntry>) --> MoodPattern, i: int)
    requires forall k :: k in keys ==> k in weeks.entries && pattern.requires(k, weeks.entries[k])
    requires 0 <= i < |keys|
    ensures PatternsFor(weeks, keys, pattern)[i] == pattern(keys[i], weeks.entries[keys[i]])
  {
    var front := keys[..|keys| - 1];
    assert forall k :: k in front ==> k in keys;
    if i < |front| {
      PatternsForAt(weeks, front, pattern, i);
    }
  }

  /** One more key appends the pattern of its group. */
  lemma PatternsForStep(weeks: Table<seq<MoodEntry>>, keys: seq<string>, pattern: (string, seq<MoodEntry>) --> MoodPattern, i: int)
    requires forall k :: k in keys ==> k in weeks.entries && pattern.requires(k, weeks.entries[k])
    requires 0 <= i < |keys|
    ensures forall k :: k in keys[..i] ==> k in weeks.entries && pattern.requires(k, weeks.entries[k])
    ensures PatternsFor(weeks, keys[..i + 1], pattern) ==
      PatternsFor(weeks, keys[..i], pattern) + [pattern(keys[i], weeks.entries[keys[i]])]
  {
    assert keys[..i + 1][..i] == keys[..i];
  }

  /** The patterns of the groups under key function `weekOf`, in first-seen key order. */
  function PatternsBy(entries: seq<MoodEntry>, weekOf: int -> string): seq<MoodPattern>
  {
    if entries == [] then []
    else
      var weeks := Grouped(entries, weekOf);
      GroupedSpec(entries, weekOf);
      PatternsFor(weeks, weeks.order, PatternOf)
  }

  /** What `analyzeMoodPatterns` returns: one pattern per week, in first-seen week order. */
  function MoodPatterns(entries: seq<MoodEntry>): seq<MoodPattern>
  {
    PatternsBy(entries, WeekKey)
  }

  /** The loop of `analyzeMoodPatterns`: a pattern per key, in key order. */
  method PatternsOfGroups(weeks: Table<seq<MoodEntry>>, keys: seq<string>) returns (patterns: seq<MoodPattern>)
    requires forall k :: k in keys ==> k in weeks.entries && weeks.entries[k] != []
    ensures patterns == PatternsFor(weeks, keys, PatternOf)
  {
    patterns := [];
    var i := 0;
    while i < |keys|
      invariant 0 <= i <= |keys|
      invariant patterns == PatternsFor(weeks, keys[..i], PatternOf)
    {
      var week := keys[i];
      PatternsForStep(weeks, keys, PatternOf, i);
      var pattern := PatternOfWeek(week, weeks.entries[week]);
      patterns := patterns + [pattern];
      i := i + 1;
    }
    assert keys[..|keys|] == keys;
  }

  /** `analyzeMoodPatterns` for any key function. */
  method AnalyzePatternsBy(moodEntries: seq<MoodEntry>, weekOf: int -> string) returns (patterns: seq<MoodPattern>)
    ensures patterns == PatternsBy(moodEntries, weekOf)
  {
    if |moodEntries| == 0 {
      return [];
    }
    var weeklyData := GroupBy(moodEntries, weekOf);
    GroupedSpec(moodEntries, weekOf);
    patterns := PatternsOfGroups(weeklyData, weeklyData.order);
  }

  /** `analyzeMoodPatterns`: no patterns for no entries; otherwise one per week group. */
  method AnalyzeMoodPatterns(moodEntries: seq<MoodEntry>) returns (patterns: seq<MoodPattern>)
    ensures patterns == MoodPatterns(moodEntries)
  {
    patterns := AnalyzePatternsBy(moodEntries, WeekKey);
  }

  /**
   * The pattern of a group is labelled with its week, its average lies
   * between the least and the greatest score, its confidence is at most 1,
   * and its dominant mood is the first most frequent mood.
   */
  lemma PatternOfSpec(week: string, group: seq<MoodEntry>)
    requires group != []
    ensures PatternOf(week, group).period == "Week " + week
    ensures Min(Scores(group)) <= PatternOf(week, group).averageMood <= Max(Scores(group))
    ensures PatternOf(week, group).confidence <= 1.0
    ensures exists i :: (FirstMostFrequent(Moods(group), i) &&
      PatternOf(week, group).dominantMood == NeutralIfEmpty(Distinct(Moods(group))[i]))
  {
    MeanBetweenMinAndMax(Scores(group));
    DominantMoodIsFirstMostFrequent(group);
  }

  /**
   * There are no patterns for no entries; otherwise there is one per
   * distinct key of the timestamped entries, in first-seen order, and the
   * `i`-th is the pattern of the non-empty group of the `i`-th key.
   */
  lemma PatternsBySpec(entries: seq<MoodEntry>, weekOf: int -> string)
    ensures entries == [] ==> PatternsBy(entries, weekOf) == []
    ensures entries != [] ==> |PatternsBy(entries, weekOf)| == |Distinct(WeekKeys(entries, weekOf))|
    ensures entries != [] ==> forall i :: 0 <= i < |PatternsBy(entries, weekOf)| ==>
      InWeek(entries, weekOf, Distinct(WeekKeys(entries, weekOf))[i]) != [] &&
      PatternsBy(entries, weekOf)[i] ==
        PatternOf(Distinct(WeekKeys(entries, weekOf))[i], InWeek(entries, weekOf, Distinct(WeekKeys(entries, weekOf))[i]))
  {
    if entries != [] {
      GroupedSpec(entries, weekOf);
      var weeks := Grouped(entries, weekOf);
      forall i | 0 <= i < |weeks.order|
        ensures PatternsFor(weeks, weeks.order, PatternOf)[i] == PatternOf(weeks.order[i], weeks.entries[weeks.order[i]])
      {
        PatternsForAt(weeks, weeks.order, PatternOf, i);
      }
    }
  }
}
