# Mood analytics and in-memory store of Mind_Mend

This project models two parts of the Mind_Mend server in Dafny.

The first part is the mood analytics of `MoodAnalyzer` (`server/services/moodAnalysis.ts`). It covers:

- the product-moment correlation of a health metric with the mood score, and how that correlation is labelled and described;
- the pairing of health metrics with the nearest mood entry within a day;
- the correlation pipeline over four fixed factors;
- grouping mood entries by week key;
- counting moods and picking the dominant mood;
- the trend of a week (means of overlapping halves after a chronological sort);
- the confidence blend;
- the ISO 8601 week number and the `YYYY-Wn` key;
- the completeness check that guards the call to the external mood model.

The second part is `MemStorage` (`server/storage.ts`). It stores users and, for each user, lists of health metrics, mood entries, chat messages and insights. The model is a Dafny class with one field per map. Its operations cover:

- creating records, which fills defaults and appends one record;
- queries that sort a stored list in place and then slice it, or that filter into a new list;
- marking the first insight with a given id as read.

Modules, one per file:

- `Schema`: record shapes.
- `Sorting`: stable `Array.prototype.sort`, as the function `SortBy` and as an in-place insertion sort on an array.
- `Slices`: `slice` with negative indices.
- `Stats`: sums, means, and the Cauchy-Schwarz bound.
- `Correlation`: the correlation coefficient and how it is labelled and described.
- `Calendar`: days, years, ISO weeks and week keys.
- `Alignment`: pairing metrics with mood entries.
- `Trends`: the trend and the confidence of a week.
- `OrderedMaps`: insertion-ordered maps and counting.
- `WeeklyPatterns`: grouping by week, counting moods and the weekly patterns.
- `MoodAnalysis`: the correlation pipeline and the completeness check.
- `Storage`: `MemStorage`.

Modelling choices:

- **Numbers.** Scores, confidences and coefficients are exact `real`s. The correlation is kept as a numerator and a radicand, `numerator / sqrt(radicand)`, and every comparison the source makes on it is decided exactly on that pair. `Correlation.Denotes` ties the pair to the real number it stands for.
- **Time.** Timestamps are integers: milliseconds since the Unix epoch, in UTC. A missing timestamp reads as 0, as `timestamp?.getTime() || 0` does.
- **Map order.** JavaScript `Map`s and records iterate in insertion order. Where that order is observable (the week groups, the mood counts, the users, the insights), it is kept as an `OrderedMaps.Table`: an order sequence beside a map.
- **Inputs from outside.** Fresh ids (`randomUUID()`), the current time (`new Date()`) and the randomly drawn demo records are parameters of the operations that use them.

`calculateTrend` sorts the array it is given in place (`server/services/moodAnalysis.ts:170`). `Trends.CalculateTrend` takes an `array` and states its sorted new contents. `WeeklyPatterns.PatternOfWeek` hands it a fresh array, so `calculateConfidence` reads the entries in sorted order, and `Trends.ConfidenceAfterSort` shows that this order does not change the result.

The week key follows the code: the ISO week number goes with the calendar year of the date (`getFullYear`), not with the ISO week-year. `Calendar.CalendarYearCollision` proves the consequence. Monday 1 January 2024 and Monday 30 December 2024 both get the key `2024-W1`, so they fall into the same weekly group.

## Model

| member | source | states |
|---|---|---|
| Correlation.CalculateCorrelation | server/services/moodAnalysis.ts:219-233 | 0 for series of different lengths or empty series; otherwise numerator `n Σxy - Σx Σy` over the square root of the product of the two spreads, and 0 when that product is 0; numerator² never exceeds the radicand |
| Correlation.CorrelationZeroIff | server/services/moodAnalysis.ts:220-232 | for equal, non-empty lengths the result is the zero coefficient exactly when one of the series is constant |
| Correlation.CorrelationZeroCases | server/services/moodAnalysis.ts:220-232 | different lengths, empty series or a constant series give exactly 0 |
| Correlation.CorrelationInRange | server/services/moodAnalysis.ts:229-232 | the number the coefficient stands for lies in [-1, 1] |
| Correlation.CorrelationSymmetric | server/services/moodAnalysis.ts:222-232 | corr(x, y) = corr(y, x) |
| Correlation.SelfCorrelation | server/services/moodAnalysis.ts:222-232 | a non-constant series correlates with itself at exactly 1 |
| Correlation.CorrelationSign | server/services/moodAnalysis.ts:229-232 | the sign of r is the sign of `n Σxy - Σx Σy`, both ways |
| Correlation.ThresholdsExact | server/services/moodAnalysis.ts:236-238 | the exact tests on numerator and radicand agree with `Math.abs(r) >= t`, `Math.abs(r) > t` and `r > 0` |
| Correlation.SignificanceOf | server/services/moodAnalysis.ts:235-240 | the level is one of Strong, Moderate, Weak, Very Weak |
| Correlation.SignificanceLevel | server/services/moodAnalysis.ts:235-240 | `getSignificanceLevel` on a real strength; `Correlation.SignificanceOfExact` proves the coefficient's level is this function of abs(r) |
| Correlation.SignificanceOfExact | server/services/moodAnalysis.ts:235-240 | the level of the exact coefficient is the level of its absolute value at 0.7 / 0.4 / 0.2 |
| Correlation.DescriptionMatchesSignificance | server/services/moodAnalysis.ts:242-255 | the description is the sentence of the significance level of abs(r), with "positively" only when r > 0 |
| Correlation.DescribeCorrelation | server/services/moodAnalysis.ts:242-255 | `describeCorrelation` on a real r; `Correlation.DescriptionMatchesSignificance` proves each sentence goes with its significance level |
| Correlation.DescriptionOf | server/services/moodAnalysis.ts:242-255 | the description of an exact coefficient; `Correlation.DescriptionOfExact` proves it equals `DescribeCorrelation` of the real it stands for |
| Correlation.DescriptionOfExact | server/services/moodAnalysis.ts:242-255 | describing the exact coefficient gives the description of the number it stands for |
| Trends.CalculateTrend | server/services/moodAnalysis.ts:167-185 | returns the trend of the old contents; with two entries or more the array ends up holding them stably sorted by time, otherwise it is unchanged |
| Trends.TrendOf | server/services/moodAnalysis.ts:167-185 | the trend of a list of entries, the reference `Trends.CalculateTrend` is proved against; `Trends.TrendOfSorted`, `Trends.ConstantScoresAreStable` and `Trends.SeparatedHalves` state its properties |
| Trends.ClassifyHalves | server/services/moodAnalysis.ts:174-184 | Improving exactly when the later half's mean exceeds the earlier half's by more than 0.5, Declining exactly when it falls short by more than 0.5 |
| Trends.HalvesCover | server/services/moodAnalysis.ts:174-175 | both halves have ceil(n/2) entries and cover the series, sharing the middle entry when n is odd |
| Trends.TrendOfSorted | server/services/moodAnalysis.ts:170-172 | only the chronological order of the entries matters to the trend |
| Trends.ConstantScoresAreStable | server/services/moodAnalysis.ts:167-185 | entries that all carry one score are stable |
| Trends.SeparatedHalves | server/services/moodAnalysis.ts:177-182 | when every later score exceeds every earlier score by more than 0.5 the trend is improving |
| Trends.CalculateConfidence | server/services/moodAnalysis.ts:187-191 | at most 1.0; at least min(mean confidence, 1.0); equals min(mean + 0.2, 1.0) from two entries and min(confidence + 0.1, 1.0) for one |
| Trends.ConfidenceInUnitRange | server/services/moodAnalysis.ts:187-191 | confidences in [0, 1] give a blended confidence in [0, 1] |
| Trends.ConfidenceAfterSort | server/services/moodAnalysis.ts:63-64 | sorting the entries does not change their confidence |
| Alignment.NearMoods | server/services/moodAnalysis.ts:203-205 | exactly the timestamped moods at most one day from the metric |
| Alignment.SortedHeadIsScan | server/services/moodAnalysis.ts:203-209 | the head of the filtered, stably sorted moods is the first mood of least distance, found by a scan of the input |
| Alignment.ClosestIsFirstNearest | server/services/moodAnalysis.ts:203-211 | no mood is paired exactly when none is within a day; otherwise the paired mood is nearest, and every earlier near mood is strictly further |
| Alignment.Closest | server/services/moodAnalysis.ts:203-209 | no mood exactly when no timestamped mood lies within a day of the metric; otherwise a mood of the input within a day |
| Alignment.Aligned | server/services/moodAnalysis.ts:200-216 | at most one pair per metric; each pair holds a timestamped input metric and its closest mood |
| Alignment.AlignedConcat | server/services/moodAnalysis.ts:200-216 | the pairs keep the order of the metrics |
| Alignment.AlignedSingle | server/services/moodAnalysis.ts:201-213 | a metric yields a pair exactly when it has a timestamp and some mood lies within a day of it |
| Alignment.AlignDataByTimestamp | server/services/moodAnalysis.ts:193-217 | the pushed pairs are the aligned pairs |
| MoodAnalysis.MetricReadings | server/services/moodAnalysis.ts:27-29 | succeeds exactly when all four readings are present and non-zero, handing them on unchanged; otherwise fails with the source's message |
| MoodAnalysis.Series | server/services/moodAnalysis.ts:87-105 | one reading per pair, a missing reading counting as 0 |
| MoodAnalysis.KeepStrong | server/services/moodAnalysis.ts:134 | keeps exactly the records whose coefficient exceeds 0.1 in absolute value |
| MoodAnalysis.KeepStrongInOrder | server/services/moodAnalysis.ts:134 | filtering keeps the factor order |
| MoodAnalysis.KeepStrongPushed | server/services/moodAnalysis.ts:107-134 | of the four pushed records, at most four are kept, in factor order, exactly the strong ones |
| MoodAnalysis.StrongCandidates | server/services/moodAnalysis.ts:87-134 | the same for the records computed from the aligned pairs |
| MoodAnalysis.AnalyzeHealthMoodCorrelations | server/services/moodAnalysis.ts:71-135 | returns the correlations of the reference definition |
| MoodAnalysis.HealthMoodCorrelationsSpec | server/services/moodAnalysis.ts:71-135 | empty for fewer than 5 metrics, 5 moods or 3 pairs; otherwise a subsequence of the four factors in order, holding a factor exactly when its coefficient exceeds 0.1 in absolute value |
| MoodAnalysis.HealthMoodCorrelations | server/services/moodAnalysis.ts:71-135 | the correlations of the four factors, filtered; `MoodAnalysis.HealthMoodCorrelationsSpec` states its guards and contents |
| MoodAnalysis.ReportedCorrelationMeaning | server/services/moodAnalysis.ts:107-134 | a reported correlation stands for r in [-1, 1] with abs(r) > 0.1; its significance and description are those of r |
| MoodAnalysis.ConstantFactorNotReported | server/services/moodAnalysis.ts:87-134 | a factor with one reading on all pairs is never reported |
| Calendar.DayOf | server/services/moodAnalysis.ts:264 | the UTC day holding the timestamp, rounding down |
| Calendar.YearOf | server/services/moodAnalysis.ts:258 | the calendar year whose days include the day |
| Calendar.YearOfUnique | server/services/moodAnalysis.ts:267 | each day lies in exactly one year |
| Calendar.YearLength | server/services/moodAnalysis.ts:267 | a year has 366 days when it is a leap year and 365 otherwise |
| Calendar.IsoWeekday | server/services/moodAnalysis.ts:265 | Monday is 1 and Sunday is 7 |
| Calendar.ThursdayOf | server/services/moodAnalysis.ts:266 | the Thursday of the date's week: a day with ISO weekday 4, within three days of it |
| Calendar.GetWeekNumber | server/services/moodAnalysis.ts:263-269 | the week number of the timestamp's day, between 1 and 53 |
| Calendar.WeekNumber | server/services/moodAnalysis.ts:263-269 | the ISO 8601 week number of a day; `Calendar.WeekNumberRange`, `Calendar.WeekOneHoldsFirstThursday`, `Calendar.SameWeekSameNumber` and `Calendar.NextWeek` state its properties |
| Calendar.WeekNumberRange | server/services/moodAnalysis.ts:263-269 | week numbers run from 1 to 53 |
| Calendar.WeekOneHoldsFirstThursday | server/services/moodAnalysis.ts:266-268 | week 1 is the week whose Thursday is among its year's first seven days |
| Calendar.SameWeekSameNumber | server/services/moodAnalysis.ts:265-268 | Monday to Sunday share one Thursday and one week number |
| Calendar.NextWeek | server/services/moodAnalysis.ts:266-268 | seven days later is the next week number within one week-year |
| Calendar.WeekOfThirtiethDecember2024 | server/services/moodAnalysis.ts:263-269 | Monday 30 December 2024 is in week 1 |
| Calendar.NatToStringRoundTrip | server/services/moodAnalysis.ts:260 | reading the decimal digits back gives the number |
| Calendar.KeyInjective | server/services/moodAnalysis.ts:257-261 | two keys are equal only for equal years and week numbers |
| Calendar.WeekKey | server/services/moodAnalysis.ts:257-260 | `getWeekKey` on the UTC day of a timestamp; `Calendar.KeyInjective`, `Calendar.SameWeekSameKey` and `Calendar.CalendarYearCollision` state its properties |
| Calendar.SameWeekSameKey | server/services/moodAnalysis.ts:257-261 | days of one week and one calendar year share a key |
| Calendar.CalendarYearCollision | server/services/moodAnalysis.ts:257-261 | 1 January 2024 and 30 December 2024 both get the key `2024-W1` |
| OrderedMaps.Distinct | server/services/moodAnalysis.ts:150-151 | every key occurs once, and exactly the keys of the input occur |
| OrderedMaps.DistinctInFirstSeenOrder | server/services/moodAnalysis.ts:147-154 | keys come in the order of their first occurrence |
| OrderedMaps.Table.Put | server/services/moodAnalysis.ts:151 | a new key goes last, an existing key keeps its place; the map gets the value |
| OrderedMaps.CountsStep | server/services/moodAnalysis.ts:162 | counting one more element adds one to its count, starting from 0, and appends a new key |
| WeeklyPatterns.GroupBy | server/services/moodAnalysis.ts:144-157 | the loop builds the groups one entry at a time |
| WeeklyPatterns.GroupByWeek | server/services/moodAnalysis.ts:144-157 | `groupByWeek` with the week key |
| WeeklyPatterns.GroupsBySkip | server/services/moodAnalysis.ts:148 | an entry without a timestamp changes no group |
| WeeklyPatterns.GroupsByAdd | server/services/moodAnalysis.ts:149-153 | a timestamped entry is appended to its key's group, which is created when new |
| WeeklyPatterns.GroupedIsGroupsBy | server/services/moodAnalysis.ts:144-157 | the groups built by the loop are the reference groups (each key with its timestamped entries) |
| WeeklyPatterns.GroupsBySpec | server/services/moodAnalysis.ts:144-157 | keys in first-seen order, each holding exactly its timestamped entries in input order, none empty, every timestamped entry in its group |
| WeeklyPatterns.InWeekNonEmpty | server/services/moodAnalysis.ts:150-153 | every key that occurs has a non-empty group |
| WeeklyPatterns.CountMoods | server/services/moodAnalysis.ts:159-165 | the loop builds the counts one entry at a time |
| WeeklyPatterns.MoodCountsAreCounts | server/services/moodAnalysis.ts:159-165 | each mood with its number of occurrences, moods in first-seen order |
| WeeklyPatterns.DominantMoodIsFirstMostFrequent | server/services/moodAnalysis.ts:55-57 | the dominant mood occurs at least as often as every mood and more often than every mood seen before it (`neutral` for an empty mood name) |
| WeeklyPatterns.DominantMood | server/services/moodAnalysis.ts:56-57 | `neutral` for no moods; otherwise `neutral` or a non-empty mood that was counted |
| WeeklyPatterns.DominantOfCounts | server/services/moodAnalysis.ts:56-57 | the same for any non-empty list of moods |
| WeeklyPatterns.PatternOfWeek | server/services/moodAnalysis.ts:53-65 | the pattern of one week computed as the loop body does, trend on an array sorted in place |
| WeeklyPatterns.PatternOfSpec | server/services/moodAnalysis.ts:53-65 | labelled `Week <key>`, average between least and greatest score, confidence at most 1, dominant mood the first most frequent |
| WeeklyPatterns.PatternOf | server/services/moodAnalysis.ts:53-65 | the pattern of one week's entries; `WeeklyPatterns.PatternOfSpec` states its fields and `WeeklyPatterns.PatternOfWeek` computes it with the in-place sort |
| WeeklyPatterns.PatternsForAt | server/services/moodAnalysis.ts:53-66 | the i-th pattern belongs to the group of the i-th key |
| WeeklyPatterns.PatternsOfGroups | server/services/moodAnalysis.ts:53-66 | one pattern per key, in key order |
| WeeklyPatterns.AnalyzePatternsBy | server/services/moodAnalysis.ts:46-69 | no patterns for no entries, otherwise the patterns of the groups |
| WeeklyPatterns.AnalyzeMoodPatterns | server/services/moodAnalysis.ts:46-69 | `analyzeMoodPatterns` with the week key |
| WeeklyPatterns.PatternsBySpec | server/services/moodAnalysis.ts:46-69 | empty for no entries; otherwise one pattern per distinct week key in first-seen order, the i-th being the pattern of that key's non-empty group |
| Sorting.SortByIsSorted | server/services/moodAnalysis.ts:170-172 | the sorted list is ordered by key |
| Sorting.SortByPermutes | server/storage.ts:156-157 | sorting permutes the list |
| Sorting.SortBySortedIsIdentity | server/services/moodAnalysis.ts:170-172 | sorting a list already in key order changes nothing (stability) |
| Sorting.SortByHead | server/services/moodAnalysis.ts:206-209 | the head of the sorted list is the first element of least key |
| Sorting.InsertAt | server/services/moodAnalysis.ts:170-172 | one step of the in-place sort inserts the next element into the sorted prefix |
| Sorting.InsertionSortBy | server/services/moodAnalysis.ts:170-172 | the array ends up holding the stable sort of its old contents |
| Slices.SliceTo | server/storage.ts:158 | a prefix of min(limit, n) elements for a limit of at least 0 |
| Slices.SliceFrom | server/storage.ts:222 | a suffix of the last min(limit, n) elements for limit > 0, and the whole list for limit 0 |
| Storage.NewestFirstSpec | server/storage.ts:154-159 | min(limit, n) records for limit >= 0, newest first, taken from the list, no left-out record newer than a kept one |
| Storage.LastOldestFirstSpec | server/storage.ts:218-223 | the min(limit, n) newest messages oldest first for limit > 0, with no message left out newer than one kept; all of them, sorted, for limit 0 |
| Storage.LatestSpec | server/storage.ts:161-164 | none exactly for an empty list; otherwise the first record of greatest time |
| Storage.LatestAfterAppend | server/storage.ts:161-183 | a record newer than all others is the latest |
| Storage.Recent | server/storage.ts:191-192 | exactly the entries at or after the cutoff, each as often as it is stored |
| Storage.RecentNewestFirstSpec | server/storage.ts:186-194 | exactly the recent entries, each as often as stored, newest first |
| Storage.FindInsight | server/storage.ts:268 | the position of the first insight with the id, none exactly when there is none |
| Storage.MarkAt | server/storage.ts:270 | one insight's `isRead` becomes 1 and nothing else changes |
| Storage.MarkReadSpec | server/storage.ts:266-274 | nothing changes when no insight has the id; otherwise exactly the first one, by user order then list order, is marked |
| Storage.MarkRead | server/storage.ts:266-274 | marking keeps the table's key order and key set, and keeps it valid |
| Storage.MemStorage.constructor | server/storage.ts:48-51 | the demo user with empty chat and insight lists and the given demo metrics and moods |
| Storage.MemStorage.InitializeDemoData | server/storage.ts:53-71 | stores the demo user and its four lists, then seeds metrics and moods |
| Storage.MemStorage.GenerateInitialHealthData | server/storage.ts:73-95 | appends the generated metrics to the user's list |
| Storage.MemStorage.GenerateInitialMoodData | server/storage.ts:97-122 | appends the generated entries to the user's list |
| Storage.MemStorage.GetUserByUsername | server/storage.ts:129-133 | none exactly when no user has the name; otherwise the first such user in insertion order |
| Storage.MemStorage.CreateUser | server/storage.ts:135-151 | stores the user under the fresh id with four empty lists; nothing else changes |
| Storage.MemStorage.GetHealthMetrics | server/storage.ts:154-159 | returns the newest-first slice; the stored list is replaced by its sorted version, nothing else changes |
| Storage.MemStorage.GetLatestHealthMetric | server/storage.ts:161-164 | the latest metric of the user, none for an empty or unknown list |
| Storage.MemStorage.CreateHealthMetric | server/storage.ts:166-183 | appends exactly one record with the fresh id and time, missing readings null; no other list changes |
| Storage.MemStorage.GetMoodEntries | server/storage.ts:186-194 | the entries at or after `days` days before now, newest first; the store is unchanged |
| Storage.MemStorage.GetLatestMoodEntry | server/storage.ts:196-199 | the latest entry of the last day, none when there is none |
| Storage.MemStorage.CreateMoodEntry | server/storage.ts:201-215 | appends exactly one entry, missing factors null; no other list changes |
| Storage.MemStorage.GetChatMessages | server/storage.ts:218-223 | returns the last `limit` messages oldest first (by `Storage.LastOldestFirstSpec`, the newest ones); the stored list is replaced by its sorted version |
| Storage.MemStorage.CreateChatMessage | server/storage.ts:225-239 | appends exactly one message, `isFromUser` defaulting to 1 |
| Storage.MemStorage.GetInsights | server/storage.ts:242-247 | returns the newest-first slice; the stored list is replaced by its sorted version, the user order is kept |
| Storage.MemStorage.CreateInsight | server/storage.ts:249-264 | appends exactly one insight, `data` defaulting to null and `isRead` to 0 |
| Storage.MemStorage.MarkInsightAsRead | server/storage.ts:266-274 | the insights become the marked insights of the reference definition, with the table still valid; no other field changes |

## Left out

- `analyzeMoodFromMetrics` and `generateAIInsights` call the external language model (`server/services/openai.ts`), which is not part of this model. Only the completeness check at `server/services/moodAnalysis.ts:27-29` is modelled (`MoodAnalysis.MetricReadings`).
- `randomUUID()` and `new Date()` are parameters. The demo seeding draws its records at random, so `InitializeDemoData` takes them as given lists. The model does not state that there are seven of them, dated over the last seven days.
- Floating point: all arithmetic is on exact reals. IEEE rounding, `NaN`, and `Math.sqrt`'s rounded result are not modelled; the square root is never taken.
- Time zones: `getWeekNumber` reads local date components and `getWeekKey` reads the local year; the model reads both in UTC. `setDate(getDate() - days)` is modelled as `days` whole days of 86400000 ms, so daylight-saving shifts are not modelled.
- Timestamps are integers or missing; an invalid `Date` is not modelled.
- Calendar.GetWeekNumber: `Date.UTC` at `server/services/moodAnalysis.ts:264` reads a year from 0 to 99 as 1900 to 1999, so for dates in those years the source numbers the week of a date in the twentieth century; the model numbers the week of the date itself. Every stored timestamp comes from `new Date()`, so such years do not arise.
- Aliasing: the source's stored lists are arrays that `push` and `sort` change in place. The model reassigns the `seq` fields. `markInsightAsRead` mutates the insight object, and an array returned earlier by `getInsights` that holds that object would see the change; the model replaces the record in the stored list only.
- Storage.MemStorage.GetHealthMetrics: the ensures says the stored list becomes its sorted version but not that it is a permutation of the old list; that follows from `Sorting.SortByPermutes`. The same holds for `GetChatMessages` and `GetInsights`.
- Storage.MemStorage.InitializeDemoData: requires the empty store, which is the state its only caller, the constructor, leaves it in.
- WeeklyPatterns.DominantMood: `Object.entries` lists keys that are canonical array indices (`"0"`, `"1"`, ...) first, in ascending order; the model lists moods in insertion order.
- WeeklyPatterns.CountMoods: `countMoods` counts into a plain `{}`, so mood names that are `Object.prototype` members (`__proto__`, `constructor`, `toString`, `valueOf`, `hasOwnProperty`, ...) start from the inherited value instead of 0: `toString` gets a string count that the comparator at `server/services/moodAnalysis.ts:57` cannot order, and `__proto__` gets no entry at all (so `["__proto__"]` gives `neutral`). The model counts every name from 0 as an ordinary key.
- A non-integer `limit` or `days` is not modelled.
- `getUser` (`server/storage.ts:125-127`), the `IStorage` interface and the exported singleton are not modelled: they hold no logic beyond a map lookup.
