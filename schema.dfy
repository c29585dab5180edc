/**
 * Record shapes of the stored tables (users, health metrics, mood entries,
 * chat messages, insights) and of the values handed to the `create*`
 * operations. Timestamps are milliseconds since the Unix epoch; a nullable
 * column is an `Option`. JSON columns are kept as opaque text.
 */
module Schema {
  import opened Wrappers

  type Json = string

  datatype User = User(id: string, username: string, email: string, createdAt: Option<int>)

  datatype InsertUser = InsertUser(username: string, email: string)

  datatype HealthMetric = HealthMetric(
    id: string,
    userId: string,
    heartRate: Option<int>,
    sleepHours: Option<real>,
    steps: Option<int>,
    stressLevel: Option<int>,
    timestamp: Option<int>)

  datatype InsertHealthMetric = InsertHealthMetric(
    userId: string,
    heartRate: Option<int>,
    sleepHours: Option<real>,
    steps: Option<int>,
    stressLevel: Option<int>)

  datatype MoodEntry = MoodEntry(
    id: string,
    userId: string,
    mood: string,
    score: real,
    confidence: real,
    factors: Option<Json>,
    timestamp: Option<int>)

  datatype InsertMoodEntry = InsertMoodEntry(
    userId: string,
    mood: string,
    score: real,
    confidence: real,
    factors: Option<Json>)

  datatype ChatMessage = ChatMessage(
    id: string,
    userId: string,
    message: string,
    isFromUser: int,
    timestamp: Option<int>)

  datatype InsertChatMessage = InsertChatMessage(userId: string, message: string, isFromUser: Option<int>)

  /** `kind` is the `type` column (pattern, correlation, recommendation, alert). */
  datatype Insight = Insight(
    id: string,
    userId: string,
    kind: string,
    title: string,
    description: string,
    data: Option<Json>,
    isRead: int,
    timestamp: Option<int>)

  datatype InsertInsight = InsertInsight(
    userId: string,
    kind: string,
    title: string,
    description: string,
    data: Option<Json>,
    isRead: Option<int>)

  /** `timestamp?.getTime() || 0`: a missing timestamp sorts and compares as the epoch. */
  function Time(timestamp: Option<int>): int
  {
    if timestamp.Some? then timestamp.value else 0
  }
}
