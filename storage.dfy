/**
 * The in-memory store (`MemStorage`): users in a map keyed by id, and per
 * user the lists of health metrics, mood entries, chat messages and
 * insights, each in a map keyed by user id.
 *
 * Fresh ids (`randomUUID()`) and the current time (`new Date()`) are
 * parameters of the operations that use them. The users and the insights
 * are kept as `Table`s because the source iterates over them in insertion
 * order; the other maps are only read by key. The queries that sort a
 * stored list in place reassign that list with its sorted version.
 */
module Storage {
  import opened Wrappers
  import opened Schema
  import opened Sorting
  import opened Slices
  import opened OrderedMaps

  const DemoUserId: string := "demo-user-1"

  /** `setDate(getDate() - days)`: the same clock time `days` whole days (of 86400000 ms) earlier. */
  function DaysBefore(now: int, days: int): int
  {
    now - days * 86400000
  }

  function MetricTime(m: HealthMetric): int { Time(m.timestamp) }
  function EntryTime(e: MoodEntry): int { Time(e.timestamp) }
  function MessageTime(m: ChatMessage): int { Time(m.timestamp) }
  function InsightTime(i: Insight): int { Time(i.timestamp) }

  /** The key of a descending comparator `(a, b) => t(b) - t(a)`. */
  function Negated<T>(time: T -> int): T -> int
  {
    x => -time(x)
  }

  /** `map.get(key) || []` */
  function ListOf<T>(m: map<string, seq<T>>, key: string): seq<T>
  {
    if key in m then m[key] else []
  }

  /* Queries on one user's list. */

  /** `sort((a, b) => t(b) - t(a)).slice(0, limit)` */
  function NewestFirst<T>(s: seq<T>, time: T -> int, limit: int): seq<T>
  {
    SliceTo(SortBy(s, Negated(time)), limit)
  }

  /** The elements of a sorted list before position `n` are ordered before every later one. */
  lemma SortedSplit<T>(sorted: seq<T>, key: T -> int, n: nat, x: T)
    requires SortedBy(sorted, key) && n <= |sorted|
    requires x in sorted && x !in sorted[..n]
    ensures forall y :: y in sorted[..n] ==> key(y) <= key(x)
  {
    var k :| 0 <= k < |sorted| && sorted[k] == x;
    forall y | y in sorted[..n] ensures key(y) <= key(x) {
      var i :| 0 <= i < n && sorted[..n][i] == y;
    }
  }

  /**
   * With a limit `>= 0` the result holds `min(limit, n)` elements, newest
   * first, all taken from `s`, and no element left out is newer than one
   * kept.
   */
  lemma NewestFirstSpec<T>(s: seq<T>, time: T -> int, limit: int)
    ensures limit >= 0 ==> |NewestFirst(s, time, limit)| == if limit < |s| then limit else |s|
    ensures forall i, j :: 0 <= i < j < |NewestFirst(s, time, limit)| ==>
      time(NewestFirst(s, time, limit)[i]) >= time(NewestFirst(s, time, limit)[j])
    ensures multiset(NewestFirst(s, time, limit)) <= multiset(s)
    ensures forall x, y :: x in s && x !in NewestFirst(s, time, limit) && y in NewestFirst(s, time, limit) ==>
      time(y) >= time(x)
  {
    var sorted := SortBy(s, Negated(time));
    var r := NewestFirst(s, time, limit);
    SortByIsSorted(s, Negated(time));
    SortByPermutes(s, Negated(time));
    assert sorted == r + sorted[|r|..];
    forall x | x in s && x !in r ensures forall y :: y in r ==> time(y) >= time(x) {
      assert x in multiset(sorted);
      SortedSplit(sorted, Negated(time), |r|, x);
    }
  }

  /** `sort((a, b) => t(a) - t(b)).slice(-limit)` */
  function LastOldestFirst<T>(s: seq<T>, time: T -> int, limit: int): seq<T>
  {
    SliceFrom(SortBy(s, time), -limit)
  }

  /**
   * A limit `> 0` keeps the `min(limit, n)` newest elements, oldest first;
   * a limit of 0 keeps them all, since `slice(-0)` is `slice(0)`.
   */
  lemma LastOldestFirstSpec<T>(s: seq<T>, time: T -> int, limit: int)
    ensures limit > 0 ==> |LastOldestFirst(s, time, limit)| == if limit < |s| then limit else |s|
    ensures limit == 0 ==> LastOldestFirst(s, time, limit) == SortBy(s, time)
    ensures forall i, j :: 0 <= i < j < |LastOldestFirst(s, time, limit)| ==>
      time(LastOldestFirst(s, time, limit)[i]) <= time(LastOldestFirst(s, time, limit)[j])
    ensures multiset(LastOldestFirst(s, time, limit)) <= multiset(s)
    ensures limit == 0 ==> multiset(LastOldestFirst(s, time, limit)) == multiset(s)
    ensures forall x, y :: x in s && x !in LastOldestFirst(s, time, limit) && y in LastOldestFirst(s, time, limit) ==>
      time(x) <= time(y)
  {
    var sorted := SortBy(s, time);
    var r := LastOldestFirst(s, time, limit);
    SortByIsSorted(s, time);
    SortByPermutes(s, time);
    SortedSuffix(s, sorted, time, r);
  }

  /**
   * A suffix of a sorted permutation of `s` is sorted, is drawn from `s`,
   * and holds its greatest elements.
   */
  lemma SortedSuffix<T>(s: seq<T>, sorted: seq<T>, key: T -> int, r: seq<T>)
    requires SortedBy(sorted, key) && multiset(sorted) == multiset(s)
    requires |r| <= |sorted| && r == sorted[|sorted| - |r|..]
    ensures forall i, j :: 0 <= i < j < |r| ==> key(r[i]) <= key(r[j])
    ensures multiset(r) <= multiset(s)
    ensures forall x, y :: x in s && x !in r && y in r ==> key(x) <= key(y)
  {
    var n := |sorted| - |r|;
    assert sorted == sorted[..n] + r;
    forall x | x in s && x !in r ensures forall y :: y in r ==> key(x) <= key(y) {
      assert x in multiset(sorted);
      SortedSuffixSplit(sorted, key, n, x);
    }
  }

  /** The elements of a sorted list from position `n` on are ordered after every earlier one. */
  lemma SortedSuffixSplit<T>(sorted: seq<T>, key: T -> int, n: nat, x: T)
    requires SortedBy(sorted, key) && n <= |sorted|
    requires x in sorted && x !in sorted[n..]
    ensures forall y :: y in sorted[n..] ==> key(x) <= key(y)
  {
    var k :| 0 <= k < |sorted| && sorted[k] == x;
    forall y | y in sorted[n..] ensures key(x) <= key(y) {
      var i :| 0 <= i < |sorted| - n && sorted[n..][i] == y;
    }
  }

  /** `(await getX(userId, 1))[0]`: the newest element, the first of them in `s` on a tie. */
  function Latest<T>(s: seq<T>, time: T -> int): Option<T>
  {
    var r := NewestFirst(s, time, 1);
    if |r| > 0 then Some(r[0]) else None
  }

  /** There is a latest element exactly when `s` is non-empty; it is the first element of greatest time. */
  lemma LatestSpec<T>(s: seq<T>, time: T -> int)
    ensures Latest(s, time).None? <==> s == []
    ensures Latest(s, time).Some? ==>
      Latest(s, time).value == s[FirstMinIndex(s, Negated(time))] &&
      forall x :: x in s ==> time(x) <= time(Latest(s, time).value)
  {
    if s != [] {
      SortByHead(s, Negated(time));
      var i := FirstMinIndex(s, Negated(time));
      forall x | x in s ensures time(x) <= time(s[i]) {
        var j :| 0 <= j < |s| && s[j] == x;
        assert Negated(time)(s[i]) <= Negated(time)(s[j]);
      }
    }
  }

  /** A new element strictly newer than all others is the latest one. */
  lemma LatestAfterAppend<T>(s: seq<T>, x: T, time: T -> int)
    requires forall y :: y in s ==> time(y) < time(x)
    ensures Latest(s + [x], time) == Some(x)
  {
    var t := s + [x];
    LatestSpec(t, time);
    assert t[|s|] == x;
  }

  /** `filter(entry => time(entry) >= cutoff)` */
  function Recent(entries: seq<MoodEntry>, cutoff: int): (r: seq<MoodEntry>)
    ensures forall e :: e in r <==> e in entries && EntryTime(e) >= cutoff
    ensures multiset(r) <= multiset(entries)
    ensures forall x :: multiset(r)[x] == if EntryTime(x) >= cutoff then multiset(entries)[x] else 0
  {
    if entries == [] then []
    else
      var front, last := entries[..|entries| - 1], entries[|entries| - 1];
      assert entries == front + [last];
      Recent(front, cutoff) + (if EntryTime(last) >= cutoff then [last] else [])
  }

  /** The result of `getMoodEntries`: the recent entries, newest first. */
  function RecentNewestFirst(entries: seq<MoodEntry>, cutoff: int): seq<MoodEntry>
  {
    SortBy(Recent(entries, cutoff), Negated(EntryTime))
  }

  /**
   * `getMoodEntries` returns exactly the entries at or after the cutoff,
   * each as often as it is stored, newest first.
   */
  lemma RecentNewestFirstSpec(entries: seq<MoodEntry>, cutoff: int)
    ensures forall e :: e in RecentNewestFirst(entries, cutoff) <==> e in entries && EntryTime(e) >= cutoff
    ensures multiset(RecentNewestFirst(entries, cutoff)) == multiset(Recent(entries, cutoff))
    ensures forall x :: multiset(RecentNewestFirst(entries, cutoff))[x] ==
                        if EntryTime(x) >= cutoff then multiset(entries)[x] else 0
    ensures forall i, j :: 0 <= i < j < |RecentNewestFirst(entries, cutoff)| ==>
      EntryTime(RecentNewestFirst(entries, cutoff)[i]) >= EntryTime(RecentNewestFirst(entries, cutoff)[j])
  {
    SortByPermutes(Recent(entries, cutoff), Negated(EntryTime));
    SortByIsSorted(Recent(entries, cutoff), Negated(EntryTime));
    forall e ensures e in RecentNewestFirst(entries, cutoff) <==> e in Recent(entries, cutoff) {
      assert e in RecentNewestFirst(entries, cutoff) <==> e in multiset(RecentNewestFirst(entries, cutoff));
    }
  }

  /* Marking an insight as read. */

  /** `insights.find(i => i.id === id)`, as a position. */
  function FindInsight(list: seq<Insight>, id: string): (r: Option<nat>)
    ensures r.None? <==> forall j :: 0 <= j < |list| ==> list[j].id != id
    ensures r.Some? ==> (r.value < |list| && list[r.value].id == id &&
      forall j :: 0 <= j < r.value ==> list[j].id != id)
  {
    if list == [] then None
    else if list[0].id == id then Some(0)
    else
      match FindInsight(list[1..], id)
      case None => None
      case Some(j) => Some(j + 1)
  }

  /** `insight.isRead = 1` on the `j`-th insight of `u`'s list: that flag changes, and nothing else. */
  function MarkAt(t: Table<seq<Insight>>, u: string, j: nat): (r: Table<seq<Insight>>)
    requires u in t.entries && j < |t.entries[u]|
    ensures r.order == t.order && r.entries.Keys == t.entries.Keys
    ensures forall v :: v in t.entries ==> |r.entries[v]| == |t.entries[v]|
    ensures r.entries[u][j] == t.entries[u][j].(isRead := 1)
    ensures forall v, i :: v in t.entries && 0 <= i < |t.entries[v]| && (v != u || i != j) ==>
      r.entries[v][i] == t.entries[v][i]
  {
    Table(t.order, t.entries[u := t.entries[u][j := t.entries[u][j].(isRead := 1)]])
  }

  /** The first list, among `keys` in turn, holding an insight with that id gets it marked read. */
  function MarkRead(t: Table<seq<Insight>>, keys: seq<string>, id: string): (r: Table<seq<Insight>>)
    ensures r.order == t.order && r.entries.Keys == t.entries.Keys
    ensures t.Valid() ==> r.Valid()
  {
    if keys == [] then t
    else if keys[0] in t.entries && FindInsight(t.entries[keys[0]], id).Some? then
      MarkAt(t, keys[0], FindInsight(t.entries[keys[0]], id).value)
    else MarkRead(t, keys[1..], id)
  }

  /** No list of `keys` holds an insight with that id. */
  predicate NoneWithId(t: Table<seq<Insight>>, keys: seq<string>, id: string)
  {
    forall k :: 0 <= k < |keys| && keys[k] in t.entries ==>
      forall j :: 0 <= j < |t.entries[keys[k]]| ==> t.entries[keys[k]][j].id != id
  }

  /** The `j`-th insight of the `k`-th key is the first with that id, in key order and then list order. */
  predicate FirstWithId(t: Table<seq<Insight>>, keys: seq<string>, id: string, k: int, j: int)
  {
    0 <= k < |keys| && keys[k] in t.entries && 0 <= j < |t.entries[keys[k]]| &&
    t.entries[keys[k]][j].id == id &&
    (forall j' :: 0 <= j' < j ==> t.entries[keys[k]][j'].id != id) &&
    NoneWithId(t, keys[..k], id)
  }

  /**
   * Marking changes nothing when no insight has the id; otherwise it marks
   * exactly the first insight with the id, and nothing else.
   */
  lemma {:induction false} MarkReadSpec(t: Table<seq<Insight>>, keys: seq<string>, id: string)
    ensures NoneWithId(t, keys, id) ==> MarkRead(t, keys, id) == t
    ensures !NoneWithId(t, keys, id) ==> exists k, j :: (FirstWithId(t, keys, id, k, j) &&
      MarkRead(t, keys, id) == MarkAt(t, keys[k], j))
  {
    if keys != [] {
      var rest := keys[1..];
      MarkReadSpec(t, rest, id);
      var u := keys[0];
      if u in t.entries && FindInsight(t.entries[u], id).Some? {
        var j := FindInsight(t.entries[u], id).value;
        assert FirstWithId(t, keys, id, 0, j);
      } else {
        NoneWithIdStep(t, keys, id);
        if !NoneWithId(t, keys, id) {
          var k, j :| FirstWithId(t, rest, id, k, j) && MarkRead(t, rest, id) == MarkAt(t, rest[k], j);
          FirstWithIdStep(t, keys, id, k, j);
        }
      }
    }
  }

  /** One step of `MarkRead`: the first key's list is marked when it holds the id, else the rest are tried. */
  lemma MarkReadStep(t: Table<seq<Insight>>, keys: seq<string>, id: string)
    requires keys != []
    ensures keys[0] in t.entries && FindInsight(t.entries[keys[0]], id).Some? ==>
      MarkRead(t, keys, id) == MarkAt(t, keys[0], FindInsight(t.entries[keys[0]], id).value)
    ensures !(keys[0] in t.entries && FindInsight(t.entries[keys[0]], id).Some?) ==>
      MarkRead(t, keys, id) == MarkRead(t, keys[1..], id)
  {
  }

  /** No insight with the id among `keys` means none in the first list and none among the rest. */
  lemma NoneWithIdStep(t: Table<seq<Insight>>, keys: seq<string>, id: string)
    requires keys != []
    ensures NoneWithId(t, keys, id) <==>
      (keys[0] in t.entries ==> forall j :: 0 <= j < |t.entries[keys[0]]| ==> t.entries[keys[0]][j].id != id) &&
      NoneWithId(t, keys[1..], id)
  {
    var rest := keys[1..];
    assert forall k :: 0 <= k < |rest| ==> rest[k] == keys[k + 1];
    if NoneWithId(t, rest, id) && (keys[0] in t.entries ==> forall j :: 0 <= j < |t.entries[keys[0]]| ==> t.entries[keys[0]][j].id != id) {
      forall k | 0 <= k < |keys| && keys[k] in t.entries
        ensures forall j :: 0 <= j < |t.entries[keys[k]]| ==> t.entries[keys[k]][j].id != id
      {
        if k > 0 {
          assert keys[k] == rest[k - 1];
        }
      }
    }
  }

  /** The first insight with the id after a first list without one is the first overall. */
  lemma FirstWithIdStep(t: Table<seq<Insight>>, keys: seq<string>, id: string, k: int, j: int)
    requires keys != [] && FirstWithId(t, keys[1..], id, k, j)
    requires keys[0] in t.entries ==> forall i :: 0 <= i < |t.entries[keys[0]]| ==> t.entries[keys[0]][i].id != id
    ensures FirstWithId(t, keys, id, k + 1, j)
  {
    var rest := keys[1..];
    assert keys[..k + 1] == [keys[0]] + rest[..k];
  }

  class MemStorage {
    var users: Table<User>
    var healthMetrics: map<string, seq<HealthMetric>>
    var moodEntries: map<string, seq<MoodEntry>>
    var chatMessages: map<string, seq<ChatMessage>>
    var insights: Table<seq<Insight>>

    /** The tables' key orders agree with their maps. */
    ghost predicate Valid()
      reads this
    {
      users.Valid() && insights.Valid()
    }

    /** `new MemStorage()`: empty maps, then the demo data. */
    constructor (now: int, demoMetrics: seq<HealthMetric>, demoMoods: seq<MoodEntry>)
      ensures Valid()
      ensures users == Table([DemoUserId], map[DemoUserId := User(DemoUserId, "demo", "demo@moodsync.com", Some(now))])
      ensures healthMetrics == map[DemoUserId := demoMetrics]
      ensures moodEntries == map[DemoUserId := demoMoods]
      ensures chatMessages == map[DemoUserId := []]
      ensures insights == Table([DemoUserId], map[DemoUserId := []])
    {
      users := Table([], map[]);
      healthMetrics := map[];
      moodEntries := map[];
      chatMessages := map[];
      insights := Table([], map[]);
      new;
      InitializeDemoData(now, demoMetrics, demoMoods);
    }

    /**
     * `initializeDemoData`, called by the constructor on the empty store:
     * stores the demo user with four empty lists, then seeds its metrics
     * and moods.
     */
    method InitializeDemoData(now: int, demoMetrics: seq<HealthMetric>, demoMoods: seq<MoodEntry>)
      requires users == Table([], map[]) && insights == Table([], map[])
      requires healthMetrics == map[] && moodEntries == map[] && chatMessages == map[]
      modifies this
      ensures Valid()
      ensures users == Table([DemoUserId], map[DemoUserId := User(DemoUserId, "demo", "demo@moodsync.com", Some(now))])
      ensures healthMetrics == map[DemoUserId := demoMetrics]
      ensures moodEntries == map[DemoUserId := demoMoods]
      ensures chatMessages == map[DemoUserId := []]
      ensures insights == Table([DemoUserId], map[DemoUserId := []])
    {
      var demoUser := User(DemoUserId, "demo", "demo@moodsync.com", Some(now));
      users := users.Put(demoUser.id, demoUser);
      healthMetrics := healthMetrics[demoUser.id := []];
      moodEntries := moodEntries[demoUser.id := []];
      chatMessages := chatMessages[demoUser.id := []];
      insights := insights.Put(demoUser.id, []);
      assert [] + demoMetrics == demoMetrics && [] + demoMoods == demoMoods;
      GenerateInitialHealthData(demoUser.id, demoMetrics);
      GenerateInitialMoodData(demoUser.id, demoMoods);
    }

    /**
     * `generateInitialHealthData`: appends the generated metrics to the
     * user's list. The source draws their readings at random; here they are
     * given.
     */
    method GenerateInitialHealthData(userId: string, generated: seq<HealthMetric>)
      modifies this`healthMetrics
      ensures healthMetrics == old(healthMetrics)[userId := ListOf(old(healthMetrics), userId) + generated]
    {
      var metrics := ListOf(healthMetrics, userId);
      metrics := metrics + generated;
      healthMetrics := healthMetrics[userId := metrics];
    }

    /**
     * `generateInitialMoodData`: appends the generated entries to the
     * user's list. The source draws their moods at random; here they are
     * given.
     */
    method GenerateInitialMoodData(userId: string, generated: seq<MoodEntry>)
      modifies this`moodEntries
      ensures moodEntries == old(moodEntries)[userId := ListOf(old(moodEntries), userId) + generated]
    {
      var entries := ListOf(moodEntries, userId);
      entries := entries + generated;
      moodEntries := moodEntries[userId := entries];
    }

    /** `Array.from(users.values()).find(user => user.username === username)` */
    method GetUserByUsername(username: string) returns (user: Option<User>)
      requires Valid()
      ensures user.None? <==> forall k :: k in users.entries ==> users.entries[k].username != username
      ensures user.Some? ==> exists i :: (0 <= i < |users.order| &&
        users.entries[users.order[i]] == user.value && user.value.username == username &&
        forall j :: 0 <= j < i ==> users.entries[users.order[j]].username != username)
    {
      var i := 0;
      while i < |users.order|
        invariant 0 <= i <= |users.order|
        invariant forall j :: 0 <= j < i ==> users.entries[users.order[j]].username != username
      {
        var candidate := users.entries[users.order[i]];
        if candidate.username == username {
          return Some(candidate);
        }
        i := i + 1;
      }
      forall k | k in users.entries ensures users.entries[k].username != username {
        var j :| 0 <= j < |users.order| && users.order[j] == k;
      }
      return None;
    }

    /** `createUser`: stores the user under the fresh id and gives it four empty lists. */
    method CreateUser(insertUser: InsertUser, id: string, now: int) returns (user: User)
      requires Valid()
      modifies this
      ensures Valid()
      ensures user == User(id, insertUser.username, insertUser.email, Some(now))
      ensures users == old(users).Put(id, user)
      ensures healthMetrics == old(healthMetrics)[id := []]
      ensures moodEntries == old(moodEntries)[id := []]
      ensures chatMessages == old(chatMessages)[id := []]
      ensures insights == old(insights).Put(id, [])
    {
      user := User(id, insertUser.username, insertUser.email, Some(now));
      users := users.Put(id, user);
      healthMetrics := healthMetrics[id := []];
      moodEntries := moodEntries[id := []];
      chatMessages := chatMessages[id := []];
      insights := insights.Put(id, []);
    }

    /**
     * `getHealthMetrics`: sorts the user's stored list in place, newest
     * first, and returns its first `limit` records.
     */
    method GetHealthMetrics(userId: string, limit: int := 50) returns (metrics: seq<HealthMetric>)
      modifies this
      ensures metrics == NewestFirst(ListOf(old(healthMetrics), userId), MetricTime, limit)
      ensures userId in old(healthMetrics) ==>
        healthMetrics == old(healthMetrics)[userId := SortBy(old(healthMetrics)[userId], Negated(MetricTime))]
      ensures userId !in old(healthMetrics) ==> healthMetrics == old(healthMetrics)
      ensures users == old(users) && moodEntries == old(moodEntries)
      ensures chatMessages == old(chatMessages) && insights == old(insights)
    {
      var sorted := SortBy(ListOf(healthMetrics, userId), Negated(MetricTime));
      if userId in healthMetrics {
        healthMetrics := healthMetrics[userId := sorted];
      }
      metrics := SliceTo(sorted, limit);
    }

    /** `getLatestHealthMetric`: the first record of `getHealthMetrics(userId, 1)`, if any. */
    method GetLatestHealthMetric(userId: string) returns (metric: Option<HealthMetric>)
      modifies this
      ensures metric == Latest(ListOf(old(healthMetrics), userId), MetricTime)
      ensures userId in old(healthMetrics) ==>
        healthMetrics == old(healthMetrics)[userId := SortBy(old(healthMetrics)[userId], Negated(MetricTime))]
      ensures userId !in old(healthMetrics) ==> healthMetrics == old(healthMetrics)
      ensures users == old(users) && moodEntries == old(moodEntries)
      ensures chatMessages == old(chatMessages) && insights == old(insights)
    {
      var metrics := GetHealthMetrics(userId, 1);
      metric := if |metrics| > 0 then Some(metrics[0]) else None;
    }

    /**
     * `createHealthMetric`: appends one record, with the fresh id and the
     * current time, to the user's list; missing readings stay null.
     */
    method CreateHealthMetric(insertMetric: InsertHealthMetric, id: string, now: int) returns (metric: HealthMetric)
      modifies this
      ensures metric == HealthMetric(id, insertMetric.userId, insertMetric.heartRate, insertMetric.sleepHours,
        insertMetric.steps, insertMetric.stressLevel, Some(now))
      ensures healthMetrics == old(healthMetrics)[insertMetric.userId := ListOf(old(healthMetrics), insertMetric.userId) + [metric]]
      ensures users == old(users) && moodEntries == old(moodEntries)
      ensures chatMessages == old(chatMessages) && insights == old(insights)
    {
      metric := HealthMetric(id, insertMetric.userId, insertMetric.heartRate, insertMetric.sleepHours,
        insertMetric.steps, insertMetric.stressLevel, Some(now));
      var userMetrics := ListOf(healthMetrics, insertMetric.userId);
      userMetrics := userMetrics + [metric];
      healthMetrics := healthMetrics[insertMetric.userId := userMetrics];
    }

    /**
     * `getMoodEntries`: the user's entries at or after `days` days before
     * `now`, newest first, in a new list; the store is unchanged.
     */
    method GetMoodEntries(userId: string, now: int, days: int := 30) returns (entries: seq<MoodEntry>)
      ensures entries == RecentNewestFirst(ListOf(moodEntries, userId), DaysBefore(now, days))
    {
      var cutoff := DaysBefore(now, days);
      entries := SortBy(Recent(ListOf(moodEntries, userId), cutoff), Negated(EntryTime));
    }

    /** `getLatestMoodEntry`: the first entry of `getMoodEntries(userId, 1)`, if any. */
    method GetLatestMoodEntry(userId: string, now: int) returns (entry: Option<MoodEntry>)
      ensures entry == Latest(Recent(ListOf(moodEntries, userId), DaysBefore(now, 1)), EntryTime)
    {
      var entries := GetMoodEntries(userId, now, 1);
      assert |entries| > 0 ==> SliceTo(entries, 1)[0] == entries[0];
      entry := if |entries| > 0 then Some(entries[0]) else None;
    }

    /** `createMoodEntry`: appends one entry; missing factors are stored as null. */
    method CreateMoodEntry(insertEntry: InsertMoodEntry, id: string, now: int) returns (entry: MoodEntry)
      modifies this
      ensures entry == MoodEntry(id, insertEntry.userId, insertEntry.mood, insertEntry.score,
        insertEntry.confidence, insertEntry.factors, Some(now))
      ensures moodEntries == old(moodEntries)[insertEntry.userId := ListOf(old(moodEntries), insertEntry.userId) + [entry]]
      ensures users == old(users) && healthMetrics == old(healthMetrics)
      ensures chatMessages == old(chatMessages) && insights == old(insights)
    {
      entry := MoodEntry(id, insertEntry.userId, insertEntry.mood, insertEntry.score,
        insertEntry.confidence, insertEntry.factors, Some(now));
      var userEntries := ListOf(moodEntries, insertEntry.userId);
      userEntries := userEntries + [entry];
      moodEntries := moodEntries[insertEntry.userId := userEntries];
    }

    /**
     * `getChatMessages`: sorts the user's stored messages in place, oldest
     * first, and returns the last `limit` of them (all of them for 0).
     */
    method GetChatMessages(userId: string, limit: int := 50) returns (messages: seq<ChatMessage>)
      modifies this
      ensures messages == LastOldestFirst(ListOf(old(chatMessages), userId), MessageTime, limit)
      ensures userId in old(chatMessages) ==>
        chatMessages == old(chatMessages)[userId := SortBy(old(chatMessages)[userId], MessageTime)]
      ensures userId !in old(chatMessages) ==> chatMessages == old(chatMessages)
      ensures users == old(users) && healthMetrics == old(healthMetrics)
      ensures moodEntries == old(moodEntries) && insights == old(insights)
    {
      var sorted := SortBy(ListOf(chatMessages, userId), MessageTime);
      if userId in chatMessages {
        chatMessages := chatMessages[userId := sorted];
      }
      messages := SliceFrom(sorted, -limit);
    }

    /** `createChatMessage`: appends one message; `isFromUser` defaults to 1. */
    method CreateChatMessage(insertMessage: InsertChatMessage, id: string, now: int) returns (message: ChatMessage)
      modifies this
      ensures message == ChatMessage(id, insertMessage.userId, insertMessage.message,
        if insertMessage.isFromUser.Some? then insertMessage.isFromUser.value else 1, Some(now))
      ensures chatMessages == old(chatMessages)[insertMessage.userId := ListOf(old(chatMessages), insertMessage.userId) + [message]]
      ensures users == old(users) && healthMetrics == old(healthMetrics)
      ensures moodEntries == old(moodEntries) && insights == old(insights)
    {
      var isFromUser := if insertMessage.isFromUser.Some? then insertMessage.isFromUser.value else 1;
      message := ChatMessage(id, insertMessage.userId, insertMessage.message, isFromUser, Some(now));
      var userMessages := ListOf(chatMessages, insertMessage.userId);
      userMessages := userMessages + [message];
      chatMessages := chatMessages[insertMessage.userId := userMessages];
    }

    /**
     * `getInsights`: sorts the user's stored insights in place, newest
     * first, and returns the first `limit` of them.
     */
    method GetInsights(userId: string, limit: int := 20) returns (result: seq<Insight>)
      requires Valid()
      modifies this
      ensures Valid()
      ensures result == NewestFirst(ListOf(old(insights).entries, userId), InsightTime, limit)
      ensures insights.order == old(insights).order
      ensures userId in old(insights).entries ==>
        insights.entries == old(insights).entries[userId := SortBy(old(insights).entries[userId], Negated(InsightTime))]
      ensures userId !in old(insights).entries ==> insights == old(insights)
      ensures users == old(users) && healthMetrics == old(healthMetrics)
      ensures moodEntries == old(moodEntries) && chatMessages == old(chatMessages)
    {
      var sorted := SortBy(ListOf(insights.entries, userId), Negated(InsightTime));
      if userId in insights.entries {
        insights := insights.Put(userId, sorted);
      }
      result := SliceTo(sorted, limit);
    }

    /** `createInsight`: appends one insight; `data` defaults to null and `isRead` to 0. */
    method CreateInsight(insertInsight: InsertInsight, id: string, now: int) returns (insight: Insight)
      requires Valid()
      modifies this
      ensures Valid()
      ensures insight == Insight(id, insertInsight.userId, insertInsight.kind, insertInsight.title,
        insertInsight.description, insertInsight.data,
        if insertInsight.isRead.Some? then insertInsight.isRead.value else 0, Some(now))
      ensures insights == old(insights).Put(insertInsight.userId, ListOf(old(insights).entries, insertInsight.userId) + [insight])
      ensures users == old(users) && healthMetrics == old(healthMetrics)
      ensures moodEntries == old(moodEntries) && chatMessages == old(chatMessages)
    {
      var isRead := if insertInsight.isRead.Some? then insertInsight.isRead.value else 0;
      insight := Insight(id, insertInsight.userId, insertInsight.kind, insertInsight.title,
        insertInsight.description, insertInsight.data, isRead, Some(now));
      var userInsights := ListOf(insights.entries, insertInsight.userId);
      userInsights := userInsights + [insight];
      insights := insights.Put(insertInsight.userId, userInsights);
    }

    /**
     * `markInsightAsRead`: walks the users in insertion order and marks the
     * first insight with the id in the first list holding one, then stops.
     */
    method MarkInsightAsRead(insightId: string)
      requires Valid()
      modifies this
      ensures Valid()
      ensures insights == MarkRead(old(insights), old(insights).order, insightId)
      ensures users == old(users) && healthMetrics == old(healthMetrics)
      ensures moodEntries == old(moodEntries) && chatMessages == old(chatMessages)
    {
      var order := insights.order;
      var i := 0;
      while i < |order|
        invariant 0 <= i <= |order|
        invariant unchanged(this)
        invariant MarkRead(insights, order, insightId) == MarkRead(insights, order[i..], insightId)
      {
        var userId := order[i];
        if userId in insights.entries {
          var userInsights := insights.entries[userId];
          var found := FindInsight(userInsights, insightId);
          if found.Some? {
            MarkReadStep(insights, order[i..], insightId);
            insights := MarkAt(insights, userId, found.value);
            return;
          }
        }
        MarkReadStep(insights, order[i..], insightId);
        assert order[i..][1..] == order[i + 1..];
        i := i + 1;
      }
      assert order[i..] == [];
    }
  }
}
